/** The set of open cubes of Treengeling. */
module CubeTree {
  import opened Wrappers
  import opened Cnf
  import opened Cubes

  datatype State = Free | Ready | Simp | Lkhd | Split | Search

  /** An open cube with the solver instance that works on it. */
  class Node {
    var state: State
    var pos: nat
    var lookahead: Option<Lit>
    var depth: nat
    var res: int
    var id: nat
    var cube: seq<Lit>
    /** What lglinconsistent says of the instance. */
    var inconsistent: bool

    constructor (pos: nat, depth: nat, id: nat, cube: seq<Lit>)
      ensures state == Ready && this.pos == pos && this.depth == depth && this.id == id && this.cube == cube
      ensures lookahead == None && res == 0 && !inconsistent
    {
      state, this.pos, lookahead, this.depth := Ready, pos, None, depth;
      res, this.id, this.cube, inconsistent := 0, id, cube, false;
    }
  }

  /** The clause of a closed cube, in the list from which the parallel solver takes it. */
  class Leaf {
    var id: int
    var lits: seq<Lit>
    var next: Leaf?
    var prev: Leaf?

    constructor (id: int, lits: seq<Lit>)
      ensures this.id == id && this.lits == lits && next == null && prev == null
    {
      this.id, this.lits, next, prev := id, lits, null, null;
    }
  }

  class Treengeling {
    const formula: set<seq<Lit>>
    var nodes: seq<Node>
    var ids: nat
    /** The first and the last leaf, and the counts of leafs. */
    var first: Leaf?
    var last: Leaf?
    var num: int
    var max: int
    var count: int

    /** The cubes of the nodes, in their order; the cubes that were closed; the leafs in order. */
    ghost var open: seq<seq<Lit>>
    ghost var closed: seq<seq<Lit>>
    ghost var queue: seq<Leaf>

    /** Every node is where it says, and has its cube. */
    ghost predicate Placed()
      reads this`nodes, this`open, nodes
    {
      && |open| == |nodes|
      && (forall i :: 0 <= i < |nodes| ==> nodes[i].pos == i && nodes[i].cube == open[i])
    }

    /** Instances only claim what is true of the formula and their cube. */
    ghost predicate Sound()
      reads this`nodes, this`open, nodes
    {
      && |open| == |nodes|
      && forall i :: 0 <= i < |nodes| ==> Claims(nodes[i].res, nodes[i].inconsistent, open[i])
    }

    ghost predicate Claims(res: int, inconsistent: bool, cube: seq<Lit>) {
      && (res == 20 || inconsistent ==> Refuted(formula, cube))
      && (res == 10 ==> Satisfiable(formula))
    }

    /** The cubes divide the search space, and the closed ones are refuted. */
    ghost predicate Divided()
      reads this`open, this`closed
    {
      && Partition(open, closed)
      && forall k :: 0 <= k < |closed| ==> Refuted(formula, closed[k])
    }

    /** The leafs are a doubly linked list, and their clauses follow from the formula. */
    ghost predicate Linked()
      reads this`first, this`last, this`queue, queue
    {
      && first == (if queue == [] then null else queue[0])
      && last == (if queue == [] then null else queue[|queue| - 1])
      && (forall i :: 0 <= i < |queue| ==> LinkAt(i) && Entails(formula, queue[i].lits))
      && (forall i, j :: 0 <= i < j < |queue| ==> queue[i] != queue[j])
    }

    ghost predicate LinkAt(i: nat)
      requires i < |queue|
      reads this`queue, queue
    {
      && queue[i].next == (if i + 1 < |queue| then queue[i + 1] else null)
      && queue[i].prev == (if i > 0 then queue[i - 1] else null)
    }

    ghost predicate Valid()
      reads this, nodes, queue
    {
      Placed() && Sound() && Divided() && Linked() && Counted()
    }

    /** The counter that gives out ids is the length of the list. */
    ghost predicate Counted()
      reads this`count, this`queue
    {
      count == |queue|
    }

    ghost function Ids(q: seq<Leaf>): (r: seq<int>)
      reads q`id
      ensures |r| == |q| && forall i :: 0 <= i < |q| ==> r[i] == q[i].id
    {
      if q == [] then [] else Ids(q[..|q| - 1]) + [q[|q| - 1].id]
    }

    /** One node with the empty cube. */
    constructor (f: set<seq<Lit>>)
      ensures Valid() && formula == f && open == [[]] && closed == [] && queue == []
      ensures forall n :: n in nodes ==> fresh(n) && n.state == Ready
    {
      var root := new Node(0, 0, 0, []);
      formula, nodes, ids := f, [root], 1;
      first, last, num, max, count := null, null, 0, 0, 0;
      open, closed, queue := [[]], [], [];
      new;
      RootPartition();
    }

    // ---------- splitting ----------

    /** A child of a node, with one more literal. */
    method NewNode(parent: Node, decision: Lit) returns (child: Node)
      requires Placed() && parent in nodes
      modifies this`nodes, this`ids, this`open
      ensures fresh(child) && nodes == old(nodes) + [child] && open == old(open) + [parent.cube + [decision]] && Placed()
      ensures child.state == Ready && child.depth == parent.depth + 1 && child.res == 0 && !child.inconsistent
      ensures child.id == old(ids) && ids == old(ids) + 1 && child.lookahead == None
    {
      child := new Node(|nodes|, parent.depth + 1, ids, parent.cube + [decision]);
      ids := ids + 1;
      nodes := nodes + [child];
      open := open + [parent.cube + [decision]];
    }

    /** Splits a node by its lookahead literal: the node goes on with the literal, a new one with
        its negation. */
    method SplitNode(node: Node) returns (ghost child: Node)
      requires Valid() && node in nodes && node.lookahead.Some?
      modifies this`nodes, this`ids, this`open, node`cube
      ensures Valid() && fresh(child) && nodes == old(nodes) + [child]
      ensures var l := node.lookahead.value;
              open == old(open)[node.pos := old(node.cube) + [l]] + [old(node.cube) + [l.Neg()]]
    {
      hide Linked, Partition, Refuted, Satisfiable;
      var l := node.lookahead.value;
      ghost var i, before := node.pos, open;
      SplitPartition(open, closed, i, l);
      ClaimsMore(node.res, node.inconsistent, open[i], l);
      var c := NewNode(node, l.Neg());
      node.cube := node.cube + [l];
      open := open[i := open[i] + [l]];
      assert open == before[i := before[i] + [l]] + [before[i] + [l.Neg()]];
      child := c;
    }

    /** What is refuted stays so under one more literal. */
    lemma ClaimsMore(res: int, inconsistent: bool, cube: seq<Lit>, l: Lit)
      requires Claims(res, inconsistent, cube)
      ensures Claims(res, inconsistent, cube + [l])
    {
      if Refuted(formula, cube) {
        RefutedMore(formula, cube, l);
      }
    }

    // ---------- closing ----------

    /** Deletes a node; the last one takes its place. */
    method DelNode(node: Node)
      requires Placed() && Sound() && node in nodes && node.state == Ready
      modifies this`nodes, this`open, nodes`pos
      ensures Placed() && Sound() && nodes == Removed(old(nodes), old(node.pos)) && open == Removed(old(open), old(node.pos))
    {
      hide Claims;
      ghost var i := node.pos;
      var lastpos := |nodes| - 1;
      var lastNode := nodes[lastpos];
      if node != lastNode {
        nodes := nodes[node.pos := lastNode];
        lastNode.pos := node.pos;
      }
      nodes := nodes[..lastpos];
      open := Removed(open, i);
    }

    /** Turns the cube of a node into a clause. */
    method NewLeaf(node: Node) returns (leaf: Leaf)
      requires Refuted(formula, node.cube)
      modifies this`num, this`max, this`count
      ensures fresh(leaf) && leaf.lits == Negated(node.cube) && Entails(formula, leaf.lits)
      ensures leaf.next == null && leaf.prev == null
      ensures num == old(num) + 1 && count == old(count) + 1 && leaf.id == count
    {
      num := num + 1;
      if num > max {
        max := num;
      }
      count := count + 1;
      LeafFollows(formula, node.cube);
      leaf := new Leaf(count, Negated(node.cube));
    }

    method EnqLeaf(leaf: Leaf)
      requires Linked() && leaf !in queue && leaf.next == null && leaf.prev == null && Entails(formula, leaf.lits)
      modifies this`first, this`last, this`queue, leaf`prev, (if last != null then {last} else {})`next
      ensures Linked() && queue == old(queue) + [leaf] && leaf.lits == old(leaf.lits) && leaf.id == old(leaf.id)
    {
      hide Entails;
      ghost var n := |queue|;
      assert n > 0 ==> LinkAt(n - 1);
      if last != null {
        last.next := leaf;
      } else {
        first := leaf;
      }
      leaf.prev := last;
      last := leaf;
      queue := queue + [leaf];
      forall i | 0 <= i < |queue|
        ensures LinkAt(i) && Entails(formula, queue[i].lits)
      {
        assert i < n ==> old(LinkAt(i));
      }
    }

    /** Takes the oldest leaf. */
    method DeqLeaf() returns (res: Leaf?)
      requires Linked()
      modifies this`first, this`last, this`queue, queue`prev
      ensures Linked()
      ensures (res == null <==> old(queue) == []) && (res == null ==> queue == [])
      ensures res != null ==> res == old(queue)[0] && queue == old(queue)[1..] && Entails(formula, res.lits)
    {
      hide Entails;
      res := first;
      if res != null {
        assert LinkAt(0);
        if res.next != null {
          res.next.prev := null;
        } else {
          last := null;
        }
        first := res.next;
        queue := queue[1..];
        forall i | 0 <= i < |queue|
          ensures LinkAt(i) && Entails(formula, queue[i].lits)
        {
          assert old(LinkAt(i + 1));
        }
      }
    }

    lemma NoLeafs()
      requires Linked()
      ensures first == null <==> queue == []
    {
    }

    /** The clause that the parallel solver consumes: it follows from the formula. */
    method ConsumeCls() returns (clause: Option<seq<Lit>>)
      requires Linked()
      modifies this`first, this`last, this`queue, this`count, queue`prev
      ensures Linked()
      ensures clause == None <==> old(queue) == []
      ensures clause.Some? ==> clause.value == old(queue[0].lits) && queue == old(queue)[1..] && Entails(formula, clause.value)
      ensures count == if clause.Some? then old(count) - 1 else old(count)
      ensures clause.Some? ==> Ids(queue) == old(Ids(queue))[1..]
      ensures old(Counted()) ==> Counted()
    {
      hide Linked, Entails;
      NoLeafs();
      var leaf := DeqLeaf();
      if leaf != null {
        clause := Some(leaf.lits);
        // deleaf counts down the wrong counter.
        count := count - 1;
      } else {
        clause := None;
      }
    }

    /** Puts the clause of a refuted cube into the list. */
    method EnqNewLeafFromNode(node: Node)
      requires Linked() && Refuted(formula, node.cube)
      modifies this`num, this`max, this`count, this`first, this`last, this`queue, (if last != null then {last} else {})`next
      ensures Linked() && |queue| == |old(queue)| + 1 && queue[..|old(queue)|] == old(queue) && fresh(queue[|old(queue)|])
      ensures queue[|old(queue)|].lits == Negated(node.cube)
      ensures last == queue[|old(queue)|] && last.id == count == old(count) + 1 && num == old(num) + 1
      ensures old(Counted()) ==> Counted() && Ids(queue) == old(Ids(queue)) + [NextId(|old(queue)|)]
    {
      hide Refuted, Entails, Linked;
      var leaf := NewLeaf(node);
      NewInQueue(leaf);
      EnqLeaf(leaf);
      LastQueued();
    }

    /** Closes the cube of a refuted node. */
    method CloseNode(node: Node)
      requires Valid() && node in nodes && node.state == Ready && (node.res == 20 || node.inconsistent)
      modifies this, nodes`pos, (if last != null then {last} else {})`next
      ensures Valid() && nodes == Removed(old(nodes), old(node.pos)) && open == Removed(old(open), old(node.pos))
      ensures closed == old(closed) + [old(open)[old(node.pos)]]
      ensures |queue| == |old(queue)| + 1 && queue[..|old(queue)|] == old(queue) && fresh(queue[|old(queue)|])
      ensures queue[|old(queue)|].lits == Negated(old(open)[old(node.pos)])
    {
      hide Partition, Refuted, Satisfiable, Entails, Linked, Claims, Sound, Removed, Ids, NextId, Negated;
      ghost var i := node.pos;
      ClaimsRefuted(node, i);
      ClosePartition(open, closed, i);
      EnqNewLeafFromNode(node);
      closed := closed + [open[i]];
      DelNode(node);
    }

    lemma ClaimsRefuted(node: Node, i: nat)
      requires i < |nodes| && nodes[i] == node && Sound() && (node.res == 20 || node.inconsistent)
      ensures Refuted(formula, open[i])
    {
      assert Claims(nodes[i].res, nodes[i].inconsistent, open[i]);
    }

    lemma NewInQueue(leaf: Leaf)
      requires Linked() && forall i :: 0 <= i < |queue| ==> queue[i] != leaf
      ensures leaf !in queue && (last != null ==> last in queue)
    {
    }

    ghost predicate AllReady()
      reads this`nodes, nodes
    {
      forall i :: 0 <= i < |nodes| ==> nodes[i].state == Ready
    }

    ghost predicate Closable(n: Node)
      reads n
    {
      n.res == 20 || n.inconsistent
    }

    /** Closes all cubes whose instances are refuted. None left means that there is no model. */
    method Flush() returns (res: int)
      requires Valid() && AllReady()
      modifies this, nodes`pos, (if last != null then {last} else {})`next
      ensures Valid() && AllReady()
      ensures res == if nodes == [] then 20 else 0
      ensures res == 20 ==> Unsat(formula)
      ensures forall k :: 0 <= k < |nodes| ==> nodes[k] in old(nodes) && !Closable(nodes[k])
      ensures forall n :: n in old(nodes) ==> n in nodes || Closable(n)
      ensures |queue| - |old(queue)| == |closed| - |old(closed)| == |old(nodes)| - |nodes|
    {
      hide Partition, Refuted, Satisfiable, Entails, Linked, Claims;
      var i := 0;
      while i < |nodes|
        invariant i <= |nodes| && Valid() && AllReady() && (last != old(last) ==> last != null && fresh(last))
        invariant forall k :: 0 <= k < |nodes| ==> nodes[k] in old(nodes) && (k < i ==> !Closable(nodes[k]))
        invariant forall n :: n in old(nodes) ==> n in nodes || Closable(n)
        invariant |queue| - |old(queue)| == |closed| - |old(closed)| == |old(nodes)| - |nodes|
        decreases |nodes| - i
      {
        var node := nodes[i];
        if node.res == 20 {
          CloseNext(node, i);
        } else if node.inconsistent {
          CloseNext(node, i);
        } else {
          i := i + 1;
        }
      }
      if nodes != [] {
        res := 0;
      } else {
        res := 20;
        NothingOpen();
      }
    }

    /** Closes node i, and says what becomes of the others. */
    method CloseNext(node: Node, ghost i: nat)
      requires Valid() && AllReady() && i < |nodes| && nodes[i] == node && Closable(node)
      modifies this, nodes`pos, (if last != null then {last} else {})`next
      ensures Valid() && AllReady() && |nodes| == |old(nodes)| - 1 && last != null && fresh(last)
      ensures forall k :: 0 <= k < |nodes| ==> nodes[k] in old(nodes) && (k < i ==> nodes[k] == old(nodes)[k])
      ensures forall n :: n in old(nodes) ==> n in nodes || n == node
      ensures |queue| == |old(queue)| + 1 && |closed| == |old(closed)| + 1
    {
      hide Partition, Refuted, Satisfiable, Entails, Linked, Claims;
      CloseNode(node);
      RemovedKeeps(old(nodes), i);
      LastQueued();
    }

    lemma LastQueued()
      requires Linked() && queue != []
      ensures last == queue[|queue| - 1]
    {
    }

    lemma NothingOpen()
      requires Valid() && nodes == []
      ensures Unsat(formula)
    {
      AllClosed(formula, closed);
    }

    // ---------- between closing and splitting ----------

    /** An instance returns from simplification, search or lookahead with a sound answer. */
    method JobDone(node: Node, res: int, inconsistent: bool, lookahead: Option<Lit>)
      requires Valid() && node in nodes && Claims(res, inconsistent, node.cube)
      modifies node`res, node`inconsistent, node`lookahead, node`state
      ensures Valid() && node.state == Ready && node.res == res && node.inconsistent == inconsistent && node.lookahead == lookahead
    {
      hide Partition, Refuted, Satisfiable, Entails, Linked, Claims, Divided;
      node.res, node.inconsistent, node.lookahead, node.state := res, inconsistent, lookahead, Ready;
    }

    /** The places are right but for fixnodespos. */
    ghost predicate Shuffled()
      reads this`nodes, this`open, nodes
    {
      && |open| == |nodes|
      && (forall i :: 0 <= i < |nodes| ==> nodes[i].cube == open[i] && Claims(nodes[i].res, nodes[i].inconsistent, open[i]))
      && (forall i, j :: 0 <= i < j < |nodes| ==> nodes[i] != nodes[j])
    }

    /** Puts the nodes into another order, one exchange after the other, as sorting and random
        swapping do, and tells them their new places. */
    method Reorder(swaps: seq<(nat, nat)>)
      requires Valid() && forall k :: 0 <= k < |swaps| ==> swaps[k].0 < |nodes| && swaps[k].1 < |nodes|
      modifies this`nodes, this`open, nodes`pos
      ensures Valid() && |nodes| == |old(nodes)| && multiset(nodes) == multiset(old(nodes))
    {
      hide Partition, Refuted, Satisfiable, Entails, Linked, Claims;
      DistinctPlaces();
      var k := 0;
      while k < |swaps|
        invariant k <= |swaps| && |nodes| == |old(nodes)| && multiset(nodes) == multiset(old(nodes))
        invariant Shuffled() && Divided() && Linked()
      {
        SwapNodes(swaps[k].0, swaps[k].1);
        k := k + 1;
      }
      SameNodes(nodes, old(nodes));
      FixNodesPos();
    }

    method SwapNodes(i: nat, j: nat)
      requires Shuffled() && Divided() && i < |nodes| && j < |nodes|
      modifies this`nodes, this`open
      ensures Shuffled() && Divided() && nodes == old(nodes)[i := old(nodes)[j]][j := old(nodes)[i]]
      ensures |nodes| == |old(nodes)| && multiset(nodes) == multiset(old(nodes))
    {
      hide Partition, Refuted, Satisfiable, Claims;
      SwapPartition(open, closed, i, j);
      nodes := nodes[i := nodes[j]][j := nodes[i]];
      open := open[i := open[j]][j := open[i]];
    }

    lemma SameNodes(s: seq<Node>, t: seq<Node>)
      requires multiset(s) == multiset(t)
      ensures forall i :: 0 <= i < |s| ==> exists j :: 0 <= j < |t| && t[j] == s[i]
    {
      forall i | 0 <= i < |s|
        ensures exists j :: 0 <= j < |t| && t[j] == s[i]
      {
        assert s[i] in multiset(s) && s[i] in multiset(t);
        var j :| 0 <= j < |t| && t[j] == s[i];
      }
    }

    lemma DistinctPlaces()
      requires Placed() && Sound()
      ensures Shuffled()
    {
    }

    method FixNodesPos()
      requires Shuffled()
      modifies nodes`pos
      ensures Placed() && Sound()
    {
      hide Claims;
      var i := 0;
      while i < |nodes|
        invariant i <= |nodes| && Shuffled()
        invariant forall k :: 0 <= k < i ==> nodes[k].pos == k
      {
        nodes[i].pos := i;
        i := i + 1;
      }
    }

    /** The answer of a round: from a closed tree, a satisfied node, or the parallel solver. */
    method Finish(noparallel: bool, parallelRes: int) returns (res: int)
      requires Valid() && AllReady()
      requires (parallelRes == 20 ==> Unsat(formula)) && (parallelRes == 10 ==> Satisfiable(formula))
      modifies this, nodes`pos, (if last != null then {last} else {})`next
      ensures Valid() && AllReady()
      ensures res == 20 ==> Unsat(formula)
      ensures res == 10 ==> Satisfiable(formula)
      ensures nodes == [] ==> res == 20
      ensures forall k :: 0 <= k < |nodes| && nodes[k].res == 10 ==> res == 10
      ensures nodes != [] && (forall k :: 0 <= k < |nodes| ==> nodes[k].res != 10) ==> res == if noparallel then 0 else parallelRes
    {
      hide Partition, Refuted, Satisfiable, Entails, Linked;
      res := Flush();
      if res != 0 {
        return;
      }
      var i := 0;
      while i < |nodes| && nodes[i].res != 10
        invariant i <= |nodes| && forall k :: 0 <= k < i ==> nodes[k].res != 10
      {
        i := i + 1;
      }
      if i < |nodes| {
        assert Claims(nodes[i].res, nodes[i].inconsistent, open[i]);
        res := 10;
      } else if !noparallel {
        res := parallelRes;
      }
    }
  }

  // ---------- which nodes are looked at ----------

  function Min(a: nat, b: nat): nat {
    if a < b then a else b
  }

  /** The nodes that lookahead works on are an interval of the active ones. They are as few as make
      at least the given percentage of them, and as many as there is room for if there is room. */
  method FirstLkhd(numnodes: nat, maxactive: nat, branches: nat, asymmetric: bool) returns (firsttosplit: int, lasttosplit: int, numtosplit: nat)
    requires numnodes > 0 && maxactive > 0 && branches <= 100
    ensures 0 <= firsttosplit <= lasttosplit + 1 && lasttosplit < Min(numnodes, maxactive)
    ensures lasttosplit - firsttosplit + 1 == numtosplit
    ensures 100 * numtosplit >= branches * Min(numnodes, maxactive)
    ensures numnodes < maxactive ==> numtosplit >= Min(maxactive - numnodes, numnodes)
    ensures forall n :: n < numtosplit ==>
              100 * n < branches * Min(numnodes, maxactive) || (numnodes < maxactive && n < Min(maxactive - numnodes, numnodes))
    ensures asymmetric ==> lasttosplit == Min(numnodes, maxactive) - 1
    ensures !asymmetric ==> firsttosplit == 0
  {
    var numactive := if maxactive > numnodes then numnodes else maxactive;
    PercentAtMost(numactive, branches);
    numtosplit := (numactive * branches + 99) / 100;
    if numnodes < maxactive {
      var delta := maxactive - numnodes;
      if numtosplit <= delta {
        numtosplit := delta;
      }
      if numtosplit > numnodes {
        numtosplit := numnodes;
      }
    }
    if asymmetric {
      lasttosplit := numactive - 1;
      firsttosplit := lasttosplit - numtosplit + 1;
    } else {
      firsttosplit := 0;
      lasttosplit := numtosplit - 1;
      if numtosplit > numnodes {
        lasttosplit := numnodes - 1;
      }
    }
  }

  lemma PercentAtMost(n: nat, p: nat)
    requires p <= 100
    ensures (n * p + 99) / 100 <= n && 100 * ((n * p + 99) / 100) >= p * n
  {
    assert n * p <= n * 100;
  }

  // ---------- ids of leafs ----------

  ghost predicate DistinctIds(ids: seq<int>) {
    forall i, j :: 0 <= i < j < |ids| ==> ids[i] != ids[j]
  }

  /** The id that the next leaf gets, by the length of the list. */
  function NextId(n: nat): int { n + 1 }

  /** A new leaf keeps the ids of the list distinct exactly if no leaf in it has the id that is
      one more than their number. */
  lemma NewIdDistinct(ids: seq<int>)
    ensures DistinctIds(ids + [NextId(|ids|)]) <==> DistinctIds(ids) && NextId(|ids|) !in ids
  {
    var more := ids + [NextId(|ids|)];
    if DistinctIds(more) {
      forall i | 0 <= i < |ids|
        ensures ids[i] != NextId(|ids|)
      {
        assert more[i] == ids[i] && more[|ids|] == NextId(|ids|);
      }
      assert forall i :: 0 <= i < |ids| ==> more[i] == ids[i];
    }
  }

  /** With consecutive ids that is so exactly if the first one is not between 2 and the next id. */
  lemma ConsecutiveIds(ids: seq<int>)
    requires ids != [] && forall i :: 0 <= i < |ids| ==> ids[i] == ids[0] + i
    ensures DistinctIds(ids + [NextId(|ids|)]) <==> !(2 <= ids[0] <= NextId(|ids|))
  {
    NewIdDistinct(ids);
    var next := NextId(|ids|);
    if 2 <= ids[0] <= next {
      assert ids[next - ids[0]] == next;
    }
  }

  /** Three refuted cubes: the first leaf is consumed before the third one is made. Then two leafs
      of the list have the same id. */
  method IdsCollide(t: Treengeling, a: Node, b: Node, c: Node)
    requires t.Linked() && t.queue == [] && t.Counted()
    requires Refuted(t.formula, a.cube) && Refuted(t.formula, b.cube) && Refuted(t.formula, c.cube)
    modifies t
    ensures t.Linked() && t.Counted() && |t.queue| == 2 && t.Ids(t.queue) == [2, 2] && t.num == old(t.num) + 3
  {
    hide Refuted, Entails;
    t.EnqNewLeafFromNode(a);
    t.EnqNewLeafFromNode(b);
    var clause := t.ConsumeCls();
    t.EnqNewLeafFromNode(c);
  }
}
