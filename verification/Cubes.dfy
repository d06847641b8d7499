/** Cubes and how splitting and closing them divides the search space. */
module Cubes {
  import opened Cnf

  ghost predicate SatCube(m: Model, cube: seq<Lit>) {
    forall i :: 0 <= i < |cube| ==> Holds(m, cube[i])
  }

  /** No model of the formula satisfies the cube. */
  ghost predicate Refuted(f: set<seq<Lit>>, cube: seq<Lit>) {
    forall m: Model :: SatAll(m, f) ==> !SatCube(m, cube)
  }

  ghost predicate Satisfiable(f: set<seq<Lit>>) {
    exists m: Model :: SatAll(m, f)
  }

  /** How many of the cubes a model satisfies. */
  ghost function NumSat(m: Model, cubes: seq<seq<Lit>>): nat {
    if cubes == [] then 0 else NumSat(m, cubes[..|cubes| - 1]) + if SatCube(m, cubes[|cubes| - 1]) then 1 else 0
  }

  ghost function One(m: Model, cube: seq<Lit>): nat {
    if SatCube(m, cube) then 1 else 0
  }

  /** Every model satisfies exactly one of the cubes, be it open or closed. */
  ghost predicate Partition(open: seq<seq<Lit>>, closed: seq<seq<Lit>>) {
    forall m: Model :: NumSat(m, open) + NumSat(m, closed) == 1
  }

  lemma NumSatAppend(m: Model, cubes: seq<seq<Lit>>, c: seq<Lit>)
    ensures NumSat(m, cubes + [c]) == NumSat(m, cubes) + One(m, c)
  {
    assert (cubes + [c])[..|cubes|] == cubes;
  }

  lemma {:induction false} NumSatUpdate(m: Model, cubes: seq<seq<Lit>>, i: nat, c: seq<Lit>)
    requires i < |cubes|
    ensures NumSat(m, cubes[i := c]) == NumSat(m, cubes) - One(m, cubes[i]) + One(m, c)
    decreases |cubes|
  {
    var n := |cubes| - 1;
    if i < n {
      NumSatUpdate(m, cubes[..n], i, c);
      assert cubes[i := c][..n] == cubes[..n][i := c];
    } else {
      assert cubes[i := c][..n] == cubes[..n];
    }
  }

  lemma {:induction false} NumSatAtLeast(m: Model, cubes: seq<seq<Lit>>, i: nat)
    requires i < |cubes|
    ensures NumSat(m, cubes) >= One(m, cubes[i])
    decreases |cubes|
  {
    if i < |cubes| - 1 {
      NumSatAtLeast(m, cubes[..|cubes| - 1], i);
    }
  }

  lemma {:induction false} NumSatSome(m: Model, cubes: seq<seq<Lit>>) returns (i: nat)
    requires NumSat(m, cubes) > 0
    ensures i < |cubes| && SatCube(m, cubes[i])
  {
    if SatCube(m, cubes[|cubes| - 1]) {
      i := |cubes| - 1;
    } else {
      i := NumSatSome(m, cubes[..|cubes| - 1]);
    }
  }

  lemma SatCubeMore(m: Model, c: seq<Lit>, l: Lit)
    ensures SatCube(m, c + [l]) <==> SatCube(m, c) && Holds(m, l)
  {
    if SatCube(m, c + [l]) {
      assert forall i :: 0 <= i < |c| ==> c[i] == (c + [l])[i];
      assert (c + [l])[|c|] == l;
    }
  }

  /** The whole space. */
  lemma RootPartition()
    ensures Partition([[]], [])
  {
    forall m: Model
      ensures NumSat(m, [[]]) == 1
    {
      var none: seq<seq<Lit>>, root: seq<Lit> := [], [];
      NumSatAppend(m, none, root);
      assert [root] == none + [root];
    }
  }

  /** Deciding a literal both ways divides a cube in two. */
  lemma SplitPartition(open: seq<seq<Lit>>, closed: seq<seq<Lit>>, i: nat, l: Lit)
    requires Partition(open, closed) && i < |open|
    ensures Partition(open[i := open[i] + [l]] + [open[i] + [l.Neg()]], closed)
  {
    forall m: Model
      ensures NumSat(m, open[i := open[i] + [l]] + [open[i] + [l.Neg()]]) == NumSat(m, open)
    {
      NumSatUpdate(m, open, i, open[i] + [l]);
      NumSatAppend(m, open[i := open[i] + [l]], open[i] + [l.Neg()]);
      SatCubeMore(m, open[i], l);
      SatCubeMore(m, open[i], l.Neg());
    }
  }

  /** Without element i, whose place the last one takes. */
  function Removed<T>(s: seq<T>, i: nat): (r: seq<T>)
    requires i < |s|
    ensures |r| == |s| - 1
    ensures forall k :: 0 <= k < |r| ==> r[k] == if k == i then s[|s| - 1] else s[k]
  {
    s[i := s[|s| - 1]][..|s| - 1]
  }

  lemma RemovedKeeps<T>(s: seq<T>, i: nat)
    requires i < |s|
    ensures forall x :: x in s ==> x in Removed(s, i) || x == s[i]
    ensures forall x :: x in Removed(s, i) ==> x in s
  {
    forall x | x in s
      ensures x in Removed(s, i) || x == s[i]
    {
      var k :| 0 <= k < |s| && s[k] == x;
      if k == |s| - 1 && k != i {
        assert Removed(s, i)[i] == x;
      } else if k != i {
        assert Removed(s, i)[k] == x;
      }
    }
  }

  /** Closing a cube moves it to the closed ones. */
  lemma ClosePartition(open: seq<seq<Lit>>, closed: seq<seq<Lit>>, i: nat)
    requires Partition(open, closed) && i < |open|
    ensures Partition(Removed(open, i), closed + [open[i]])
  {
    var n := |open| - 1;
    forall m: Model
      ensures NumSat(m, Removed(open, i)) + NumSat(m, closed + [open[i]]) == NumSat(m, open) + NumSat(m, closed)
    {
      NumSatAppend(m, closed, open[i]);
      NumSatUpdate(m, open, i, open[n]);
      assert open[i := open[n]] == Removed(open, i) + [open[n]];
      NumSatAppend(m, Removed(open, i), open[n]);
    }
  }

  lemma SwapPartition(open: seq<seq<Lit>>, closed: seq<seq<Lit>>, i: nat, j: nat)
    requires Partition(open, closed) && i < |open| && j < |open|
    ensures Partition(open[i := open[j]][j := open[i]], closed)
  {
    forall m: Model
      ensures NumSat(m, open[i := open[j]][j := open[i]]) == NumSat(m, open)
    {
      NumSatUpdate(m, open, i, open[j]);
      NumSatUpdate(m, open[i := open[j]], j, open[i]);
    }
  }

  /** When all cubes have been refuted the formula has no model. */
  lemma AllClosed(f: set<seq<Lit>>, closed: seq<seq<Lit>>)
    requires Partition([], closed) && forall k :: 0 <= k < |closed| ==> Refuted(f, closed[k])
    ensures Unsat(f)
  {
    forall m: Model
      ensures !SatAll(m, f)
    {
      assert NumSat(m, []) == 0;
      var k := NumSatSome(m, closed);
      assert Refuted(f, closed[k]);
    }
  }

  /** A model of the formula satisfies an open cube, and no other. */
  lemma ModelIsOpen(f: set<seq<Lit>>, open: seq<seq<Lit>>, closed: seq<seq<Lit>>, m: Model) returns (i: nat)
    requires Partition(open, closed) && SatAll(m, f) && forall k :: 0 <= k < |closed| ==> Refuted(f, closed[k])
    ensures i < |open| && SatCube(m, open[i]) && forall j :: 0 <= j < |open| && j != i ==> !SatCube(m, open[j])
  {
    NoneClosed(f, closed, m);
    i := NumSatSome(m, open);
    forall j | 0 <= j < |open| && j != i
      ensures !SatCube(m, open[j])
    {
      TwoSat(m, open, i, j);
    }
  }

  lemma {:induction false} NoneClosed(f: set<seq<Lit>>, closed: seq<seq<Lit>>, m: Model)
    requires SatAll(m, f) && forall k :: 0 <= k < |closed| ==> Refuted(f, closed[k])
    ensures NumSat(m, closed) == 0
  {
    if closed != [] {
      NoneClosed(f, closed[..|closed| - 1], m);
      assert Refuted(f, closed[|closed| - 1]);
    }
  }

  lemma {:induction false} TwoSat(m: Model, cubes: seq<seq<Lit>>, i: nat, j: nat)
    requires i < |cubes| && j < |cubes| && i != j
    ensures NumSat(m, cubes) >= One(m, cubes[i]) + One(m, cubes[j])
    decreases |cubes|
  {
    var n := |cubes| - 1;
    if i < n && j < n {
      TwoSat(m, cubes[..n], i, j);
    } else if i < n {
      NumSatAtLeast(m, cubes[..n], i);
    } else {
      NumSatAtLeast(m, cubes[..n], j);
    }
  }

  // ---------- leafs ----------

  function Negated(cube: seq<Lit>): (c: seq<Lit>)
    ensures |c| == |cube|
  {
    seq(|cube|, i requires 0 <= i < |cube| => cube[i].Neg())
  }

  /** The clause of a refuted cube follows from the formula. */
  lemma LeafFollows(f: set<seq<Lit>>, cube: seq<Lit>)
    requires Refuted(f, cube)
    ensures Entails(f, Negated(cube))
  {
    forall m: Model | SatAll(m, f)
      ensures SatClause(m, Negated(cube))
    {
      var i :| 0 <= i < |cube| && !Holds(m, cube[i]);
      assert Holds(m, Negated(cube)[i]);
    }
  }

  lemma RefutedMore(f: set<seq<Lit>>, cube: seq<Lit>, l: Lit)
    requires Refuted(f, cube)
    ensures Refuted(f, cube + [l])
  {
    forall m: Model | SatAll(m, f)
      ensures !SatCube(m, cube + [l])
    {
      SatCubeMore(m, cube, l);
    }
  }
}
