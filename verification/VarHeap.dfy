/** The order heap of the solver: a binary heap of variables, most active first,
    together with the index table that locates each variable in it. */
module VarHeap {

  function Parent(i: int): int { (i - 1) / 2 }
  function Left(i: int): int { 2 * i + 1 }
  function Right(i: int): int { 2 * (i + 1) }

  /** VarOrderLt: x comes before y when it is strictly more active. */
  predicate Before(act: seq<real>, x: nat, y: nat)
    requires x < |act| && y < |act|
  {
    act[x] > act[y]
  }

  /** heap and indices are inverse to each other; -1 marks an absent variable. */
  ghost predicate Inverse(heap: seq<nat>, indices: seq<int>) {
    && (forall i :: 0 <= i < |heap| ==> heap[i] < |indices| && indices[heap[i]] == i)
    && (forall v :: 0 <= v < |indices| && indices[v] != -1 ==> 0 <= indices[v] < |heap| && heap[indices[v]] == v)
  }

  /** Every variable of the heap has an activity. */
  ghost predicate Scored(heap: seq<nat>, act: seq<real>) {
    forall i :: 0 <= i < |heap| ==> heap[i] < |act|
  }

  /** The entry at i does not come before the entry at j. */
  ghost predicate NotBefore(heap: seq<nat>, act: seq<real>, i: int, j: int)
    requires Scored(heap, act)
  {
    0 <= i < |heap| && 0 <= j < |heap| ==> !Before(act, heap[i], heap[j])
  }

  ghost predicate Ordered(heap: seq<nat>, act: seq<real>)
    requires Scored(heap, act)
  {
    forall i :: 0 < i < |heap| ==> NotBefore(heap, act, i, Parent(i))
  }

  /** Heap order, except that the entry at hole may be too active for its parent. */
  ghost predicate OrderedAbove(heap: seq<nat>, act: seq<real>, hole: int)
    requires Scored(heap, act)
  {
    && (forall i :: 0 < i < |heap| && i != hole ==> NotBefore(heap, act, i, Parent(i)))
    && (forall i :: 0 < i < |heap| && Parent(i) == hole && hole > 0 ==> NotBefore(heap, act, i, Parent(hole)))
  }

  /** Heap order among the descendants of the entries from `from` on, except that the
      entry at hole may be too inactive for its children. */
  ghost predicate OrderedBelow(heap: seq<nat>, act: seq<real>, hole: int, from: int)
    requires Scored(heap, act)
  {
    && (forall i :: 0 < i < |heap| && Parent(i) != hole && Parent(i) >= from ==> NotBefore(heap, act, i, Parent(i)))
    && (forall i :: 0 < i < |heap| && Parent(i) == hole && hole > 0 && Parent(hole) >= from ==> NotBefore(heap, act, i, Parent(hole)))
  }

  /** The same variables are present. */
  ghost predicate SameMembers(indices: seq<int>, indices': seq<int>) {
    && |indices| == |indices'|
    && forall v :: 0 <= v < |indices| ==> (indices[v] == -1 <==> indices'[v] == -1)
  }

  lemma SameMembersReflexive(indices: seq<int>)
    ensures SameMembers(indices, indices)
  {
  }

  lemma SameMembersTransitive(a: seq<int>, b: seq<int>, c: seq<int>)
    requires SameMembers(a, b) && SameMembers(b, c)
    ensures SameMembers(a, c)
  {
  }

  /** The tables while x is on its way up and the hole is at i. */
  ghost predicate Rising(heap: seq<nat>, indices: seq<int>, act: seq<real>, x: nat, i: int) {
    && 0 <= i < |heap| && x < |indices| && x < |act|
    && Inverse(heap[i := x], indices[x := i])
    && Scored(heap[i := x], act) && OrderedAbove(heap[i := x], act, i)
  }

  /** The tables while x is on its way down and the hole is at i. */
  ghost predicate Sinking(heap: seq<nat>, indices: seq<int>, act: seq<real>, x: nat, i: int, from: int) {
    && 0 <= from <= i < |heap| && x < |indices| && x < |act|
    && Inverse(heap[i := x], indices[x := i])
    && Scored(heap[i := x], act) && OrderedBelow(heap[i := x], act, i, from)
  }

  /** The root is a most active variable of the whole heap. */
  lemma {:induction false} RootIsBest(heap: seq<nat>, act: seq<real>, i: int)
    requires Scored(heap, act) && Ordered(heap, act)
    requires 0 <= i < |heap|
    ensures act[heap[i]] <= act[heap[0]]
    decreases i
  {
    if i > 0 {
      assert NotBefore(heap, act, i, Parent(i));
      RootIsBest(heap, act, Parent(i));
    }
  }

  /** Moving another entry into the hole, and the hole to its place, keeps the tables inverse. */
  lemma FillHole(heap: seq<nat>, indices: seq<int>, x: nat, i: int, p: int)
    requires 0 <= i < |heap| && 0 <= p < |heap| && i != p
    requires x < |indices| && Inverse(heap[i := x], indices[x := i])
    ensures heap[p] < |indices| && heap[p] != x
    ensures Inverse(heap[i := heap[p]][p := x], indices[heap[p] := i][x := p])
    ensures SameMembers(indices[x := i], indices[heap[p] := i][x := p])
  {
    var h, ix := heap[i := x], indices[x := i];
    assert h[p] == heap[p] && h[i] == x;
    assert ix[h[p]] == p && ix[h[i]] == i;
    var h', ix' := heap[i := heap[p]][p := x], indices[heap[p] := i][x := p];
    forall k | 0 <= k < |h'|
      ensures h'[k] < |ix'| && ix'[h'[k]] == k
    {
      if k != i && k != p {
        assert h'[k] == h[k] && ix[h[k]] == k;
      }
    }
    forall v | 0 <= v < |ix'| && ix'[v] != -1
      ensures 0 <= ix'[v] < |h'| && h'[ix'[v]] == v
    {
      if v != x && v != heap[p] {
        assert ix'[v] == ix[v];
      }
    }
  }

  lemma RaiseHole(heap: seq<nat>, indices: seq<int>, act: seq<real>, x: nat, i: int)
    requires Rising(heap, indices, act, x, i) && i > 0 && Parent(i) < |heap|
    requires heap[Parent(i)] < |act| && Before(act, x, heap[Parent(i)])
    ensures heap[Parent(i)] < |indices|
    ensures Rising(heap[i := heap[Parent(i)]], indices[heap[Parent(i)] := i], act, x, Parent(i))
    ensures SameMembers(indices[x := i], indices[heap[Parent(i)] := i][x := Parent(i)])
  {
    var p := Parent(i);
    FillHole(heap, indices, x, i, p);
    var h := heap[i := x];
    var h' := heap[i := heap[p]][p := x];
    assert h[p] == heap[p];
    assert Scored(h', act);
    forall k | 0 < k < |h'| && k != p
      ensures NotBefore(h', act, k, Parent(k))
    {
      if k != i {
        assert NotBefore(h, act, k, Parent(k));
        if Parent(k) == i {
          assert NotBefore(h, act, k, p);
        }
      }
    }
    forall k | 0 < k < |h'| && Parent(k) == p && p > 0
      ensures NotBefore(h', act, k, Parent(p))
    {
      assert NotBefore(h, act, p, Parent(p));
      if k != i {
        assert NotBefore(h, act, k, p);
      }
    }
  }

  lemma Raised(h: seq<nat>, act: seq<real>, i: int)
    requires 0 <= i < |h| && Scored(h, act) && OrderedAbove(h, act, i)
    requires i != 0 ==> !Before(act, h[i], h[Parent(i)])
    ensures Ordered(h, act)
  {
    forall k | 0 < k < |h|
      ensures NotBefore(h, act, k, Parent(k))
    {
      if k == i {
        assert NotBefore(h, act, i, Parent(i));
      }
    }
  }

  /** The child that percolateDown compares with: the more active one, the left one on a tie. */
  ghost predicate BestChild(heap: seq<nat>, act: seq<real>, i: int, child: int) {
    && 0 <= i && (child == Left(i) || child == Right(i)) && child < |heap|
    && forall c :: (c == Left(i) || c == Right(i)) && c < |heap| && heap[c] < |act| && heap[child] < |act| ==>
                     !Before(act, heap[c], heap[child])
  }

  lemma LowerHole(heap: seq<nat>, indices: seq<int>, act: seq<real>, x: nat, i: int, from: int, child: int)
    requires Sinking(heap, indices, act, x, i, from)
    requires BestChild(heap, act, i, child) && heap[child] < |act| && Before(act, heap[child], x)
    ensures heap[child] < |indices|
    ensures Sinking(heap[i := heap[child]], indices[heap[child] := i], act, x, child, from)
    ensures SameMembers(indices[x := i], indices[heap[child] := i][x := child])
  {
    assert Parent(child) == i && child > i;
    FillHole(heap, indices, x, i, child);
    var h := heap[i := x];
    var h' := heap[i := heap[child]][child := x];
    assert h[child] == heap[child];
    assert Scored(h', act);
    forall k | 0 < k < |h'| && Parent(k) != child && Parent(k) >= from
      ensures NotBefore(h', act, k, Parent(k))
    {
      if Parent(k) == i {
        assert k == Left(i) || k == Right(i);
        assert k != i;
        assert h[k] == heap[k];
      } else if k == i {
        assert NotBefore(h, act, child, Parent(i));
      } else {
        assert NotBefore(h, act, k, Parent(k));
      }
    }
    forall k | 0 < k < |h'| && Parent(k) == child && child > 0 && Parent(child) >= from
      ensures NotBefore(h', act, k, Parent(child))
    {
      assert NotBefore(h, act, k, child);
    }
  }

  lemma Lowered(h: seq<nat>, act: seq<real>, i: int, from: int)
    requires 0 <= i < |h| && Scored(h, act) && OrderedBelow(h, act, i, from)
    requires forall c :: 0 < c < |h| && Parent(c) == i ==> NotBefore(h, act, c, i)
    ensures forall k :: 0 < k < |h| && Parent(k) >= from ==> NotBefore(h, act, k, Parent(k))
  {
  }

  /** Raising one activity can only put that variable too low. */
  lemma BumpedOrder(h: seq<nat>, indices: seq<int>, act: seq<real>, act': seq<real>, v: nat)
    requires Inverse(h, indices) && Scored(h, act) && Ordered(h, act) && |act'| == |act|
    requires forall u: nat :: 0 <= u < |act| && u != v ==> act'[u] == act[u]
    requires v < |act| && act'[v] >= act[v]
    requires v < |indices| && indices[v] >= 0
    ensures Scored(h, act') && OrderedAbove(h, act', indices[v])
  {
    var hole := indices[v];
    forall i | 0 < i < |h| && i != hole
      ensures NotBefore(h, act', i, Parent(i))
    {
      assert NotBefore(h, act, i, Parent(i));
      assert h[i] != v;
    }
    forall i | 0 < i < |h| && Parent(i) == hole && hole > 0
      ensures NotBefore(h, act', i, Parent(hole))
    {
      assert NotBefore(h, act, i, Parent(i)) && NotBefore(h, act, hole, Parent(hole));
      assert h[i] != v && h[Parent(hole)] != v;
    }
  }

  /** Lowering one activity can only put that variable too high. */
  lemma SunkOrder(h: seq<nat>, indices: seq<int>, act: seq<real>, act': seq<real>, v: nat)
    requires Inverse(h, indices) && Scored(h, act) && Ordered(h, act) && |act'| == |act|
    requires forall u: nat :: 0 <= u < |act| && u != v ==> act'[u] == act[u]
    requires v < |act| && act'[v] <= act[v]
    requires v < |indices| && indices[v] >= 0
    ensures Scored(h, act') && OrderedBelow(h, act', indices[v], 0) && InPlace(h, act', indices[v])
  {
    var hole := indices[v];
    forall i | 0 < i < |h| && Parent(i) != hole
      ensures NotBefore(h, act', i, Parent(i))
    {
      assert NotBefore(h, act, i, Parent(i));
      assert h[Parent(i)] != v;
    }
    forall i | 0 < i < |h| && Parent(i) == hole && hole > 0
      ensures NotBefore(h, act', i, Parent(hole))
    {
      assert NotBefore(h, act, i, Parent(i)) && NotBefore(h, act, hole, Parent(hole));
      assert h[i] != v && h[Parent(hole)] != v;
    }
  }

  /** An absent variable does not matter. */
  lemma SameActivities(h: seq<nat>, indices: seq<int>, act: seq<real>, act': seq<real>, v: nat)
    requires Inverse(h, indices) && Scored(h, act) && Ordered(h, act) && |act'| == |act|
    requires forall u: nat :: 0 <= u < |act| && u != v ==> act'[u] == act[u]
    requires v >= |indices| || indices[v] < 0
    ensures Scored(h, act') && Ordered(h, act')
  {
    forall i | 0 < i < |h|
      ensures NotBefore(h, act', i, Parent(i))
    {
      assert NotBefore(h, act, i, Parent(i)) && h[i] != v && h[Parent(i)] != v;
    }
  }

  /** The entry is not more active than its parent. */
  ghost predicate InPlace(heap: seq<nat>, act: seq<real>, i: int)
    requires Scored(heap, act)
  {
    i > 0 ==> NotBefore(heap, act, i, Parent(i))
  }

  class Heap {
    var heap: seq<nat>
    var indices: seq<int>
    var activity: seq<real>

    ghost predicate Shaped()
      reads this
    {
      Inverse(heap, indices) && Scored(heap, activity)
    }

    ghost predicate Valid()
      reads this
    {
      Shaped() && Ordered(heap, activity)
    }

    predicate InHeap(v: nat)
      reads this
    {
      v < |indices| && indices[v] >= 0
    }

    constructor ()
      ensures Valid()
      ensures heap == [] && indices == [] && activity == []
    {
      heap, indices, activity := [], [], [];
    }

    /** Moves the entry at `start` up to its place; nothing moves if it is in its place already. */
    method PercolateUp(start: nat)
      requires Shaped() && start < |heap| && (OrderedAbove(heap, activity, start) || InPlace(heap, activity, start))
      modifies this`heap, this`indices
      ensures Shaped() && SameMembers(old(indices), indices) && |heap| == old(|heap|)
      ensures old(OrderedAbove(heap, activity, start)) ==> Valid()
      ensures old(InPlace(heap, activity, start)) ==> heap == old(heap) && indices == old(indices)
    {
      ghost var above := OrderedAbove(heap, activity, start);
      var i: int := start;
      var x := heap[i];
      var p := Parent(i);
      assert x < |indices| && heap[i := x] == heap && indices[x := i] == indices;
      assert InPlace(heap, activity, start) ==> i == 0 || !Before(activity, x, heap[p]);
      hide Inverse, OrderedAbove, Ordered, NotBefore;
      while i != 0 && Before(activity, x, heap[p])
        invariant if above then Rising(heap, indices, activity, x, i) else heap == old(heap) && indices == old(indices) && i == start
        invariant p == Parent(i) && (i != 0 ==> 0 <= p < |heap| && heap[p] < |activity|)
        invariant |heap| == old(|heap|) && x < |indices| && 0 <= i < |heap| && SameMembers(old(indices), indices[x := i])
        invariant old(InPlace(heap, activity, start)) ==> heap == old(heap) && indices == old(indices) && i == start
        decreases i
      {
        RaiseHole(heap, indices, activity, x, i);
        heap, indices := heap[i := heap[p]], indices[heap[p] := i];
        i := p;
        p := Parent(p);
        assert i != 0 ==> heap[p] == heap[i := x][p];
      }
      if above {
        Raised(heap[i := x], activity, i);
      }
      heap, indices := heap[i := x], indices[x := i];
    }

    /** Moves the entry at `start` down to its place; entries before `from` are not looked at. */
    method PercolateDown(start: nat, ghost from: nat)
      requires Shaped() && from <= start < |heap| && OrderedBelow(heap, activity, start, from)
      modifies this`heap, this`indices
      ensures Shaped() && SameMembers(old(indices), indices) && |heap| == old(|heap|)
      ensures forall k :: 0 < k < |heap| && Parent(k) >= from ==> NotBefore(heap, activity, k, Parent(k))
    {
      var i: int := start;
      var x := heap[i];
      assert x < |indices| && heap[i := x] == heap && indices[x := i] == indices;
      hide Inverse, OrderedBelow, NotBefore;
      while Left(i) < |heap|
        invariant Sinking(heap, indices, activity, x, i, from)
        invariant |heap| == old(|heap|) && SameMembers(old(indices), indices[x := i])
        decreases |heap| - i
      {
        var child := ChildToRaise(i, x);
        if !Before(activity, heap[child], x) {
          ChildrenFollow(heap, activity, x, i, child);
          break;
        }
        LowerHole(heap, indices, activity, x, i, from, child);
        heap, indices := heap[i := heap[child]], indices[heap[child] := i];
        i := child;
      }
      Lowered(heap[i := x], activity, i, from);
      heap, indices := heap[i := x], indices[x := i];
    }

    /** The child of i that may have to move up. */
    method ChildToRaise(i: nat, x: nat) returns (child: int)
      requires Left(i) < |heap| && Scored(heap[i := x], activity)
      ensures BestChild(heap, activity, i, child) && heap[child] < |activity|
    {
      assert heap[i := x][Left(i)] == heap[Left(i)];
      assert Right(i) < |heap| ==> heap[i := x][Right(i)] == heap[Right(i)];
      child := if Right(i) < |heap| && Before(activity, heap[Right(i)], heap[Left(i)]) then Right(i) else Left(i);
    }

    /** A variable's activity went up. */
    method Decrease(v: nat)
      requires Shaped() && InHeap(v) && OrderedAbove(heap, activity, indices[v])
      modifies this`heap, this`indices
      ensures Valid() && SameMembers(old(indices), indices) && |heap| == old(|heap|)
    {
      PercolateUp(indices[v]);
    }

    method Increase(v: nat)
      requires Shaped() && InHeap(v) && OrderedBelow(heap, activity, indices[v], 0)
      modifies this`heap, this`indices
      ensures Valid() && SameMembers(old(indices), indices) && |heap| == old(|heap|)
    {
      PercolateDown(indices[v], 0);
    }

    method Insert(v: nat)
      requires Valid() && !InHeap(v) && v < |activity|
      modifies this`heap, this`indices
      ensures Valid() && |heap| == old(|heap|) + 1
      ensures |indices| == if v < old(|indices|) then old(|indices|) else v + 1
      ensures forall u: nat :: InHeap(u) <==> old(InHeap(u)) || u == v
    {
      ghost var was := indices;
      if |indices| <= v {
        indices := indices + seq(v + 1 - |indices|, _ => -1);
      }
      Appended(heap, indices, activity, v);
      indices := indices[v := |heap|];
      heap := heap + [v];
      ghost var grown := indices;
      PercolateUp(indices[v]);
      forall u: nat
        ensures InHeap(u) <==> (u < |was| && was[u] >= 0) || u == v
      {
        assert u < |grown| ==> (grown[u] == -1 <==> indices[u] == -1);
      }
    }

    /** Removes the root, a most active variable. */
    method RemoveMin() returns (x: nat)
      requires Valid() && heap != []
      modifies this`heap, this`indices
      ensures Valid() && |heap| == old(|heap|) - 1 && |indices| == old(|indices|)
      ensures old(InHeap(x)) && x < |activity|
      ensures forall u: nat :: old(InHeap(u)) ==> u < |activity| && activity[u] <= activity[x]
      ensures forall u: nat :: InHeap(u) <==> old(InHeap(u)) && u != x
    {
      x := heap[0];
      RootIsBestOfAll(heap, indices, activity);
      ghost var cut := CutRoot(heap, indices, activity);
      ghost var was := indices;
      var moved := heap[|heap| - 1];
      heap := heap[0 := moved];
      indices := indices[moved := 0];
      indices := indices[x := -1];
      heap := heap[..|heap| - 1];
      assert heap == cut.0 && indices == cut.1;
      if |heap| > 1 {
        PercolateDown(0, 0);
      }
      forall u: nat
        ensures InHeap(u) <==> (u < |was| && was[u] >= 0) && u != x
      {
        assert u < |cut.1| ==> (cut.1[u] == -1 <==> indices[u] == -1);
      }
    }

    /** Puts v in its place after its activity has changed in any way; act0 is what it was. */
    method Update(v: nat, ghost act0: seq<real>)
      requires Shaped() && v < |activity| == |act0| && Ordered(heap, act0)
      requires forall u: nat :: 0 <= u < |act0| && u != v ==> activity[u] == act0[u]
      modifies this`heap, this`indices
      ensures Valid()
      ensures forall u: nat :: InHeap(u) <==> old(InHeap(u)) || u == v
    {
      if !InHeap(v) {
        SameActivities(heap, indices, act0, activity, v);
        Insert(v);
      } else {
        ghost var was := indices;
        if activity[v] >= act0[v] {
          BumpedOrder(heap, indices, act0, activity, v);
        } else {
          SunkOrder(heap, indices, act0, activity, v);
        }
        PercolateUp(indices[v]);
        ghost var mid := indices;
        assert was[v] == -1 <==> mid[v] == -1;
        if activity[v] >= act0[v] {
          OrderedIsOrderedBelow(heap, activity, indices[v]);
        }
        PercolateDown(indices[v], 0);
        forall u: nat
          ensures InHeap(u) <==> (u < |was| && was[u] >= 0) || u == v
        {
          if u < |was| {
            assert (was[u] == -1 <==> mid[u] == -1) && (mid[u] == -1 <==> indices[u] == -1);
          }
        }
      }
    }

    /** Replaces the contents by the variables of ns. */
    method Build(ns: seq<nat>)
      requires Valid()
      requires forall i :: 0 <= i < |ns| ==> ns[i] < |activity| && ns[i] < |indices|
      requires forall i, j :: 0 <= i < j < |ns| ==> ns[i] != ns[j]
      modifies this`heap, this`indices
      ensures Valid() && |indices| == old(|indices|)
      ensures forall u: nat :: InHeap(u) <==> u in ns
    {
      Clear();
      for i := 0 to |ns|
        invariant heap == ns[..i] && |indices| == old(|indices|)
        invariant Inverse(heap, indices)
      {
        AppendEntry(heap, indices, ns, i);
        indices := indices[ns[i] := i];
        heap := heap + [ns[i]];
      }
      assert heap == ns;
      ghost var listed := indices;
      assert forall u: nat :: InHeap(u) ==> listed[u] >= 0 && ns[listed[u]] == u;
      assert forall u: nat :: u in ns ==> InHeap(u);
      assert Scored(heap, activity);
      var i := |heap| / 2 - 1;
      NoParents(heap, activity, i + 1);
      while i >= 0
        invariant -1 <= i <= |heap| / 2 - 1 && |heap| == |ns|
        invariant Shaped() && SameMembers(listed, indices)
        invariant forall k :: 0 < k < |heap| && Parent(k) >= i + 1 ==> NotBefore(heap, activity, k, Parent(k))
        decreases i
      {
        HoleAt(heap, activity, i);
        PercolateDown(i, i);
        i := i - 1;
      }
      forall u: nat
        ensures InHeap(u) <==> u in ns
      {
        assert u < |listed| ==> (listed[u] == -1 <==> indices[u] == -1);
      }
    }

    method Clear()
      requires Inverse(heap, indices)
      modifies this`heap, this`indices
      ensures heap == [] && |indices| == old(|indices|)
      ensures forall v :: 0 <= v < |indices| ==> indices[v] == -1
    {
      for i := 0 to |heap|
        invariant heap == old(heap) && |indices| == old(|indices|)
        invariant forall v :: 0 <= v < |indices| ==>
                    indices[v] == if 0 <= old(indices)[v] < i then -1 else old(indices)[v]
      {
        assert old(indices)[heap[i]] == i;
        assert forall v :: 0 <= v < |indices| && old(indices)[v] == i ==> v == heap[i];
        indices := indices[heap[i] := -1];
      }
      heap := [];
    }

    /** Raises a variable's activity, as varBumpActivity does, and restores the heap. */
    method Bump(v: nat, amount: real)
      requires Valid() && v < |activity| && amount >= 0.0
      modifies this
      ensures Valid() && SameMembers(old(indices), indices) && |heap| == old(|heap|)
      ensures activity == old(activity)[v := old(activity)[v] + amount]
    {
      ghost var before := activity;
      activity := activity[v := activity[v] + amount];
      if InHeap(v) {
        BumpedOrder(heap, indices, before, activity, v);
        Decrease(v);
      } else {
        BumpedElsewhere(heap, indices, before, activity, v);
      }
    }

    /** A new variable, not in the heap yet. */
    method AddVariable(a: real)
      requires Valid()
      modifies this`activity
      ensures Valid() && activity == old(activity) + [a]
    {
      ghost var before := activity;
      activity := activity + [a];
      MoreActivities(heap, before, a);
    }

    /** Scales all activities down together; the order of the variables stays the same. */
    method Rescale(factor: real)
      requires Valid() && factor > 0.0
      modifies this`activity
      ensures Valid() && |activity| == old(|activity|)
    {
      var before := activity;
      activity := seq(|activity|, i requires 0 <= i < |before| => before[i] * factor);
      ScaledOrder(heap, before, activity, factor);
    }
  }

  lemma ChildrenFollow(heap: seq<nat>, act: seq<real>, x: nat, i: int, child: int)
    requires 0 <= i < |heap| && x < |act| && Scored(heap[i := x], act)
    requires BestChild(heap, act, i, child) && heap[child] < |act| && !Before(act, heap[child], x)
    ensures forall c :: 0 < c < |heap| && Parent(c) == i ==> NotBefore(heap[i := x], act, c, i)
  {
    forall c | 0 < c < |heap| && Parent(c) == i
      ensures NotBefore(heap[i := x], act, c, i)
    {
      assert c == Left(i) || c == Right(i);
      assert heap[i := x][c] == heap[c];
    }
  }

  lemma Appended(heap: seq<nat>, indices: seq<int>, act: seq<real>, v: nat)
    requires Inverse(heap, indices) && Scored(heap, act) && Ordered(heap, act)
    requires v < |act| && v < |indices| && indices[v] == -1
    ensures Inverse(heap + [v], indices[v := |heap|]) && Scored(heap + [v], act)
    ensures OrderedAbove(heap + [v], act, |heap|)
  {
    var h := heap + [v];
    forall i | 0 < i < |h| && i != |heap|
      ensures NotBefore(h, act, i, Parent(i))
    {
      assert NotBefore(heap, act, i, Parent(i));
    }
  }

  lemma RootIsBestOfAll(heap: seq<nat>, indices: seq<int>, act: seq<real>)
    requires Inverse(heap, indices) && Scored(heap, act) && Ordered(heap, act) && heap != []
    ensures forall u: nat :: u < |indices| && indices[u] >= 0 ==> u < |act| && act[u] <= act[heap[0]]
  {
    forall u: nat | u < |indices| && indices[u] >= 0
      ensures u < |act| && act[u] <= act[heap[0]]
    {
      RootIsBest(heap, act, indices[u]);
    }
  }

  /** Taking the root out: the last entry is put in its place. */
  ghost function CutRoot(heap: seq<nat>, indices: seq<int>, act: seq<real>): (r: (seq<nat>, seq<int>))
    requires Inverse(heap, indices) && Scored(heap, act) && Ordered(heap, act) && heap != []
    ensures Inverse(r.0, r.1) && Scored(r.0, act)
    ensures |r.0| > 0 ==> OrderedBelow(r.0, act, 0, 0)
    ensures |r.1| == |indices|
    ensures forall v :: 0 <= v < |indices| ==> (r.1[v] == -1 <==> indices[v] == -1 || v == heap[0])
  {
    var last := heap[|heap| - 1];
    var h := heap[0 := last][..|heap| - 1];
    var ix := indices[last := 0][heap[0] := -1];
    assert Inverse(h, ix) by {
      assert forall i :: 0 < i < |h| ==> h[i] == heap[i];
      assert forall v :: 0 <= v < |ix| && ix[v] != -1 && v != last ==> ix[v] == indices[v];
    }
    assert |h| > 0 ==> OrderedBelow(h, act, 0, 0) by {
      forall i | 0 < i < |h| && Parent(i) != 0
        ensures NotBefore(h, act, i, Parent(i))
      {
        assert NotBefore(heap, act, i, Parent(i));
      }
    }
    (h, ix)
  }

  lemma OrderedIsOrderedBelow(h: seq<nat>, act: seq<real>, hole: int)
    requires Scored(h, act) && Ordered(h, act) && 0 <= hole < |h|
    ensures OrderedBelow(h, act, hole, 0)
  {
    forall i | 0 < i < |h| && Parent(i) == hole && hole > 0
      ensures NotBefore(h, act, i, Parent(hole))
    {
      assert NotBefore(h, act, i, Parent(i)) && NotBefore(h, act, hole, Parent(hole));
    }
  }

  lemma AppendEntry(heap: seq<nat>, indices: seq<int>, ns: seq<nat>, i: nat)
    requires i < |ns| && heap == ns[..i] && Inverse(heap, indices) && ns[i] < |indices|
    requires forall i, j :: 0 <= i < j < |ns| ==> ns[i] != ns[j]
    ensures Inverse(heap + [ns[i]], indices[ns[i] := i])
  {
    assert forall k :: 0 <= k < i ==> heap[k] == ns[k];
  }

  lemma NoParents(h: seq<nat>, act: seq<real>, from: int)
    requires Scored(h, act) && from >= |h| / 2
    ensures forall k :: 0 < k < |h| && Parent(k) >= from ==> NotBefore(h, act, k, Parent(k))
  {
  }

  lemma HoleAt(h: seq<nat>, act: seq<real>, i: nat)
    requires Scored(h, act) && i < |h|
    requires forall k :: 0 < k < |h| && Parent(k) >= i + 1 ==> NotBefore(h, act, k, Parent(k))
    ensures OrderedBelow(h, act, i, i)
  {
  }

  lemma BumpedElsewhere(h: seq<nat>, indices: seq<int>, act: seq<real>, act': seq<real>, v: nat)
    requires Inverse(h, indices) && Scored(h, act) && Ordered(h, act) && |act'| == |act|
    requires forall u: nat :: 0 <= u < |act| && u != v ==> act'[u] == act[u]
    requires v < |indices| ==> indices[v] < 0
    ensures Scored(h, act') && Ordered(h, act')
  {
    forall i | 0 < i < |h|
      ensures NotBefore(h, act', i, Parent(i))
    {
      assert NotBefore(h, act, i, Parent(i));
      assert h[i] != v && h[Parent(i)] != v;
    }
  }

  lemma MoreActivities(h: seq<nat>, act: seq<real>, a: real)
    requires Scored(h, act) && Ordered(h, act)
    ensures Scored(h, act + [a]) && Ordered(h, act + [a])
  {
    forall i | 0 < i < |h|
      ensures NotBefore(h, act + [a], i, Parent(i))
    {
      assert NotBefore(h, act, i, Parent(i));
    }
  }

  lemma ScaledOrder(h: seq<nat>, act: seq<real>, act': seq<real>, factor: real)
    requires Scored(h, act) && Ordered(h, act) && |act'| == |act| && factor > 0.0
    requires forall u: nat :: 0 <= u < |act| ==> act'[u] == act[u] * factor
    ensures Scored(h, act') && Ordered(h, act')
  {
    forall i | 0 < i < |h|
      ensures NotBefore(h, act', i, Parent(i))
    {
      assert NotBefore(h, act, i, Parent(i));
      var x, y := act[h[i]], act[h[Parent(i)]];
      assert x <= y ==> x * factor <= y * factor;
    }
  }
}
