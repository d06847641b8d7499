/** Inputs on which the preprocessor does less than one might expect. */
module SimpExamples {
  import opened Wrappers
  import opened Cnf
  import opened TrailState
  import opened Cuts
  import opened PropagationQueue
  import opened Subsumption
  import opened Resolution
  import opened Lifting
  import opened Occurrences
  import opened Elimination
  import opened UnitClosure
  import opened SimpSteps
  import opened SimpRuns
  import opened SimpScan
  import opened Simplification

  // ---------- clauses of two literals, stored one after the other ----------

  ghost predicate Pairs(cs: seq<seq<Lit>>, n: nat) {
    forall i :: 0 <= i < |cs| ==> |cs[i]| == 2 && DistinctVars(cs[i]) && InRange(cs[i], n)
  }

  function Stored(n: nat, cs: seq<seq<Lit>>): Pre {
    if cs == [] then FreshPre(n) else StoringClause(Stored(n, cs[..|cs| - 1]), cs[|cs| - 1])
  }

  /** The reference of the i-th of these clauses. */
  function RefOf(i: nat): nat { 1 + 6 * i }

  ghost predicate Holding(p: Pre, n: nat, cs: seq<seq<Lit>>) {
    && PreOk(p) && p.t == FreshPre(n).t && p.next == RefOf(|cs|)
    && (forall x :: x in p.ca ==> exists i :: 0 <= i < |cs| && x == RefOf(i))
    && (forall i :: 0 <= i < |cs| ==> Alive(p.ca, RefOf(i)) && p.ca[RefOf(i)].lits == cs[i])
  }

  lemma {:induction false} StoredShape(n: nat, cs: seq<seq<Lit>>)
    requires Pairs(cs, n)
    ensures Holding(Stored(n, cs), n, cs)
  {
    if cs == [] {
      EmptyPre(n);
    } else {
      var last := |cs| - 1;
      StoredShape(n, cs[..last]);
      OneMore(Stored(n, cs[..last]), n, cs);
    }
  }

  lemma OneMore(p: Pre, n: nat, cs: seq<seq<Lit>>)
    requires Pairs(cs, n) && cs != [] && Holding(p, n, cs[..|cs| - 1])
    ensures Holding(StoringClause(p, cs[|cs| - 1]), n, cs)
  {
    hide PreOk, Entered, Abstraction;
    var last := |cs| - 1;
    StoringOk(p, cs[last]);
    var q := StoringClause(p, cs[last]);
    forall i | 0 <= i < |cs|
      ensures Alive(q.ca, RefOf(i)) && q.ca[RefOf(i)].lits == cs[i]
    {
      if i < last {
        assert Alive(p.ca, RefOf(i)) && p.ca[RefOf(i)].lits == cs[..last][i];
      }
    }
    forall x | x in q.ca
      ensures exists i :: 0 <= i < |cs| && x == RefOf(i)
    {
      if x in p.ca {
        var i :| 0 <= i < last && x == RefOf(i);
      } else {
        assert x == RefOf(last);
      }
    }
  }

  lemma HoldingModels(p: Pre, n: nat, cs: seq<seq<Lit>>, m: Model)
    requires Holding(p, n, cs)
    ensures Models(m, p) <==> forall i :: 0 <= i < |cs| ==> SatClause(m, cs[i])
  {
    hide PreOk;
    if Models(m, p) {
      forall i | 0 <= i < |cs|
        ensures SatClause(m, cs[i])
      {
        assert Alive(p.ca, RefOf(i));
      }
    }
  }

  // ---------- eliminating with the implication check ----------

  /** Seven clauses over the variables v, a, b, c, d, e. No two of them are over the same variables. */
  function Chain(): (cs: seq<seq<Lit>>)
    ensures |cs| == 7
  {
    var v, a, b, c, d, e := Lit(0, false), Lit(1, false), Lit(2, false), Lit(3, false), Lit(4, false), Lit(5, false);
    [[v, a], [v.Neg(), b], [a.Neg(), c], [b.Neg(), c], [c.Neg(), d], [d.Neg(), e], [e.Neg(), c.Neg()]]
  }

  lemma ChainPairs()
    ensures Pairs(Chain(), 6)
  {
  }

  lemma ChainUnsat(m: Model)
    ensures exists i :: 0 <= i < 7 && !SatClause(m, Chain()[i])
  {
    var cs := Chain();
    forall i | 0 <= i < 7
      ensures SatClause(m, cs[i]) <==> Holds(m, cs[i][0]) || Holds(m, cs[i][1])
    {
      TwoLits(m, cs[i][0], cs[i][1]);
      assert cs[i] == [cs[i][0], cs[i][1]];
    }
    assert !SatClause(m, cs[0]) || !SatClause(m, cs[1]) || !SatClause(m, cs[2]) || !SatClause(m, cs[3])
        || !SatClause(m, cs[4]) || !SatClause(m, cs[5]) || !SatClause(m, cs[6]);
  }

  /** Without the first two clauses it is enough to make everything false. */
  lemma RestHolds(i: nat)
    requires 2 <= i < 7
    ensures SatClause(iset{}, Chain()[i]) && !HasVar(Chain()[i], 0)
  {
    assert Holds(iset{}, Chain()[i][0]);
  }

  /** Nothing subsumes or strengthens anything: the clauses are as the subsumption check leaves them. */
  lemma ChainReduced(i: nat, j: nat)
    requires i < 7 && j < 7 && i != j
    ensures Correct(Chain()[i], Chain()[j], Neither)
  {
    var c, d := Chain()[i], Chain()[j];
    if HasVar(d, c[0].v) && HasVar(d, c[1].v) {
      assert false;
    } else {
      var k :| 0 <= k < 2 && !HasVar(d, c[k].v);
      assert c[k] in c;
      Foreign(c, d, c[k]);
    }
  }

  lemma Foreign(c: seq<Lit>, d: seq<Lit>, l: Lit)
    requires l in c && !HasVar(d, l.v)
    ensures Correct(c, d, Neither)
  {
    forall x | x in d
      ensures x.v != l.v
    {
      var k :| 0 <= k < |d| && d[k] == x;
    }
  }

  lemma ChainClean(p: Pre, unit: Lit, lim: int)
    requires Holding(p, 6, Chain())
    ensures Clean(p, [], unit, |p.t.lits|, lim)
  {
    hide PreOk, Correct, Chain;
    forall x, y | Alive(p.ca, x) && y in p.ca && Examined(p.ca[y], y, x, lim)
      ensures !Touched(p, x, p.ca[x].lits, lim, y)
    {
      var i :| 0 <= i < 7 && x == RefOf(i);
      var j :| 0 <= j < 7 && y == RefOf(j);
      ChainReduced(i, j);
    }
  }

  lemma ChainSplit(p: Pre, pos: seq<nat>, neg: seq<nat>)
    requires Holding(p, 6, Chain()) && SplitOn(p, 0, pos, neg) && Distinct(pos) && Distinct(neg)
    ensures pos == [RefOf(0)] && neg == [RefOf(1)]
  {
    hide PreOk;
    var cs := Chain();
    forall i | 0 <= i < 7
      ensures Lit(0, false) in cs[i] <==> i == 0
      ensures Lit(0, true) in cs[i] <==> i == 1
    {
    }
    forall k | 0 <= k < |pos|
      ensures pos[k] == RefOf(0)
    {
      var i :| 0 <= i < 7 && pos[k] == RefOf(i);
    }
    forall k | 0 <= k < |neg|
      ensures neg[k] == RefOf(1)
    {
      var i :| 0 <= i < 7 && neg[k] == RefOf(i);
    }
    assert HasVar(cs[0], 0) && HasVar(cs[1], 0) by {
      assert cs[0][0].v == 0 && cs[1][0].v == 0;
    }
    assert RefOf(0) in pos && RefOf(1) in neg;
    OnlyOnce(pos, RefOf(0));
    OnlyOnce(neg, RefOf(1));
  }

  lemma OnlyOnce(s: seq<nat>, x: nat)
    requires Distinct(s) && x in s && forall k :: 0 <= k < |s| ==> s[k] == x
    ensures s == [x]
  {
    if |s| >= 2 {
      DistinctAt(s, 0, 1);
    }
  }

  lemma DistinctAt(s: seq<nat>, i: nat, j: nat)
    requires Distinct(s) && i < j < |s|
    ensures s[i] != s[j]
  {
  }

  /** One resolvent of two literals takes the place of the two clauses of v. */
  lemma ChainBounded(p: Pre)
    requires Holding(p, 6, Chain())
    ensures Alive(p.ca, RefOf(0)) && Alive(p.ca, RefOf(1))
    ensures Bounded(LitsOf(p.ca, [RefOf(0)]), LitsOf(p.ca, [RefOf(1)]), 0, 2, 20)
  {
    hide PreOk;
    var c, d := Chain()[0], Chain()[1];
    var cs, ds := LitsOf(p.ca, [RefOf(0)]), LitsOf(p.ca, [RefOf(1)]);
    assert cs == [c] && ds == [d];
    assert Resolvent(c, d, 0) <= {c[0], c[1], d[0], d[1]};
    ResolventSmall(c, d);
    PairCountNext(cs, ds, 0, 0);
    RowCountNext(c, ds, 0, 0);
    assert cs[..1] == cs && ds[..1] == ds;
    assert PairCount(cs, ds, 0) <= 1;
  }

  lemma ResolventSmall(c: seq<Lit>, d: seq<Lit>)
    requires |c| == 2 && |d| == 2
    ensures |Resolvent(c, d, 0)| <= 4
  {
    var all := {c[0], c[1], d[0], d[1]};
    forall l | l in Resolvent(c, d, 0)
      ensures l in all
    {
    }
    SubsetSmall(Resolvent(c, d, 0), all);
  }

  lemma SubsetSmall(a: set<Lit>, b: set<Lit>)
    requires a <= b
    ensures |a| <= |b|
  {
    assert b == a + (b - a);
  }

  /** Everything false is a model of the clauses without v, but not of the resolvent of a pair. */
  lemma ChainLoses(p: Pre)
    requires Holding(p, 6, Chain()) && SplitOn(p, 0, [RefOf(0)], [RefOf(1)])
    ensures ModelsOff(iset{}, p, 0) && !PairsImplied(p, 0, [RefOf(0)], [RefOf(1)])
  {
    hide PreOk;
    var m: Model := iset{};
    forall x | Alive(p.ca, x) && !HasVar(p.ca[x].lits, 0)
      ensures SatClause(m, p.ca[x].lits)
    {
      var i :| 0 <= i < 7 && x == RefOf(i);
      assert Chain()[0][0].v == 0 && Chain()[1][0].v == 0;
      RestHolds(i);
    }
    assert ModelsOff(m, p, 0);
    var cs, ds := LitsOf(p.ca, [RefOf(0)]), LitsOf(p.ca, [RefOf(1)]);
    assert cs[0] == Chain()[0] && ds[0] == Chain()[1];
    assert !PairHolds(m, cs[0], ds[0], 0);
  }

  ghost function ChainSet(): set<seq<Lit>> {
    set i | 0 <= i < 7 :: Chain()[i]
  }

  lemma ChainFaithful(p: Pre)
    requires Holding(p, 6, Chain())
    ensures Faithful(p, ChainSet(), [], false) && Unsat(ChainSet())
  {
    hide PreOk, Chain, Models, Holding;
    forall m: Model
      ensures SatAll(m, ChainSet()) <==> Models(m, p)
      ensures !SatAll(m, ChainSet())
    {
      HoldingModels(p, 6, Chain(), m);
      ChainUnsat(m);
      assert forall i :: 0 <= i < 7 ==> Chain()[i] in ChainSet();
    }
  }

  /** With the implication check switched on, the elimination of v turns contradictory clauses,
      among which nothing is left to subsume, into satisfiable ones. */
  method EliminatesTooMuch() returns (s: SimpSolver)
    ensures fresh(s) && s.Valid() && s.ok && s.useRcheck && s.lossy
    ensures Unsat(s.original) && exists m: Model :: Models(m, s.p)
  {
    s := LoadChain();
    hide PreOk, Chain, Models, ModelsOff, Faithful, StackOk, SplitOn, Bounded, PairCount, Holding, PairsImplied, Unsat;
    ghost var p0 := s.p;
    ghost var pos, neg, recs;
    var good;
    good, pos, neg, recs := s.EliminateVar(0);
    ChainSplit(p0, pos, neg);
    ChainBounded(p0);
    ChainLoses(p0);
  }

  /** The clauses of Chain, as they are when all are stored and the subsumption check is over. */
  method LoadChain() returns (s: SimpSolver)
    ensures fresh(s) && s.Valid() && s.ok && s.useRcheck && !s.lossy
    ensures Holding(s.p, 6, Chain()) && !s.p.t.Assigned(0) && Clean(s.p, [], s.tmpUnit, |s.p.t.lits|, s.subsumptionLim)
    ensures |s.eliminated| == |s.frozen| == 6 && !s.eliminated[0] && !s.frozen[0] && s.grow == 0 && s.clauseLim == 20
    ensures s.original == ChainSet() && Unsat(s.original)
  {
    hide Chain, Stored, PreOk, Holding, Clean, Faithful, StackOk, Unsat, ChainSet, QueueOk, FreshPre;
    s := new SimpSolver(6);
    ChainReady(s.eliminated, s.tmpUnit, s.subsumptionLim);
    s.p := Stored(6, Chain());
    s.original := ChainSet();
    s.useRcheck := true;
  }

  lemma ChainReady(eliminated: seq<bool>, unit: Lit, lim: int)
    requires |eliminated| == 6 && forall v :: 0 <= v < 6 ==> !eliminated[v]
    ensures var p := Stored(6, Chain());
            && Holding(p, 6, Chain()) && PreOk(p) && p.next > 0 && |p.t.assigns| == 6 && p.t.lits == [] && !p.t.Assigned(0)
            && StackOk(p, eliminated, [], []) && Faithful(p, ChainSet(), [], false) && Clean(p, [], unit, |p.t.lits|, lim)
            && QueueOk(p, [], unit)
    ensures Unsat(ChainSet())
  {
    hide Chain, Stored, PreOk, Clean, Faithful, StackOk, Unsat, ChainSet;
    var p := Stored(6, Chain());
    ChainPairs();
    StoredShape(6, Chain());
    ChainFaithful(p);
    ChainStack(p, eliminated);
    ChainClean(p, unit, lim);
  }

  lemma ChainStack(p: Pre, eliminated: seq<bool>)
    requires Holding(p, 6, Chain()) && |eliminated| == 6 && forall v :: 0 <= v < 6 ==> !eliminated[v]
    ensures StackOk(p, eliminated, [], [])
  {
    ChainPairs();
    forall x | Alive(p.ca, x)
      ensures AvoidsEliminated(p.ca[x].lits, eliminated)
    {
      PreClause(p, x);
    }
    hide PreOk;
  }

  // ---------- asymmetric branching ----------

  /** The clauses (v or b or a), (b or d) and (b or not d), with a false at level 0. */
  function Branching(): Pre {
    var v, b, d, a := Lit(0, false), Lit(1, false), Lit(2, false), Lit(3, false);
    var p := StoringClause(StoringClause(StoringClause(FreshPre(4), [v, b, a]), [b, d]), [b, d.Neg()]);
    p.(t := p.t.Push(a.Neg(), None))
  }

  lemma BranchingOk()
    ensures PreOk(Branching())
  {
    var v, b, d, a := Lit(0, false), Lit(1, false), Lit(2, false), Lit(3, false);
    EmptyPre(4);
    hide PreOk, Entered, Abstraction;
    var p0 := FreshPre(4);
    StoringOk(p0, [v, b, a]);
    StoringOk(StoringClause(p0, [v, b, a]), [b, d]);
    var p := StoringClause(StoringClause(p0, [v, b, a]), [b, d]);
    StoringOk(p, [b, d.Neg()]);
    EnqueuedOk(StoringClause(p, [b, d.Neg()]), a.Neg());
  }

  lemma BranchingShape()
    ensures var p := Branching(); var v, b, d, a := Lit(0, false), Lit(1, false), Lit(2, false), Lit(3, false);
            && Alive(p.ca, 1) && p.ca[1].lits == [v, b, a] && Alive(p.ca, 8) && p.ca[8].lits == [b, d]
            && Alive(p.ca, 14) && p.ca[14].lits == [b, d.Neg()] && p.clauses == [1, 8, 14]
            && p.t.IsFalse(a) && p.t.IsUndef(v) && p.t.IsUndef(b) && p.t.IsUndef(d) && |p.t.lits| == 1
  {
    hide Entered, Abstraction;
  }

  /** If b is false as well, d would have to be both true and false. */
  lemma BranchingConflicts()
    ensures !ConflictFree(Branching(), Branching().ca[1].lits, 0)
  {
    BranchingShape();
    hide Branching;
    var p := Branching();
    var c := p.ca[1].lits;
    forall t: Trail | Negated(t, c, 0, |c|)
      ensures !StableList(p.ca, p.clauses, t, 3)
    {
      assert t.IsFalse(c[1]);
      assert p.clauses[1] == 8 && p.clauses[2] == 14;
      NotBothStable(t, c[1], Lit(2, false));
    }
  }

  lemma NotBothStable(t: Trail, b: Lit, d: Lit)
    requires t.IsFalse(b) && b.v != d.v
    ensures !(Stable(t, [b, d]) && Stable(t, [b, d.Neg()]))
  {
    if Stable(t, [b, d]) {
      assert t.IsTrue([b, d][1]) && [b, d.Neg()][1] == d.Neg();
    }
  }

  /** Asymmetric branching on v takes out a, which is false and comes last, and keeps v. */
  method BranchingKeepsVariable() returns (s: SimpSolver)
    ensures fresh(s) && PreOk(s.p) && Alive(s.p.ca, 1) && s.p.ca[1].lits == [Lit(0, false), Lit(1, false)]
  {
    hide PreOk, Branching, Reduces, SameModels, Refuted, ConflictFree, Faithful, StackOk;
    s := new SimpSolver(4);
    BranchingOk();
    BranchingShape();
    BranchingConflicts();
    s.p := Branching();
    assert s.p.ca[1].lits[0].v == 0;
    ghost var p0 := s.p;
    var good;
    ghost var dropped;
    good, dropped := s.Asymm(0, 1);
    BranchingDrops(p0.t, p0.ca[1].lits, dropped.value);
  }

  lemma BranchingDrops(t: Trail, c: seq<Lit>, l: Lit)
    requires |c| == 3 && c[0].v == 0 && c[1].v == 1 && c[2].v == 3 && t.IsFalse(c[2]) && LastLeftOut(t, c, 0, l)
    ensures l == c[2] && RemoveFirst(c, l) == [c[0], c[1]]
  {
    var k :| 0 <= k < |c| && c[k] == l && LeftOut(t, c, 0, k) && NoneLeftOut(t, c, 0, k + 1, |c|);
    assert LeftOut(t, c, 0, 2);
    assert RemoveFirst(c[2..], l) == [];
  }
}
