/** Bounded variable elimination: why the records bring back the clauses of an eliminated
    variable. */
module Elimination {
  import opened Cnf
  import opened TrailState
  import opened Cuts
  import opened Propagation
  import opened Subsumption
  import opened Resolution
  import opened Lifting
  import opened Occurrences

  /** The same model except perhaps on v. */
  ghost predicate AgreeOff(m: Model, m': Model, v: nat) {
    forall u: nat :: u != v ==> (u in m <==> u in m')
  }

  /** c holds in m by a literal of another variable than v. */
  ghost predicate HoldsOff(m: Model, c: seq<Lit>, v: nat) {
    exists l :: l in c && l.v != v && Holds(m, l)
  }

  lemma HoldsOffAgrees(m: Model, m': Model, c: seq<Lit>, v: nat)
    requires AgreeOff(m, m', v)
    ensures HoldsOff(m, c, v) <==> HoldsOff(m', c, v)
  {
    if l :| l in c && l.v != v && Holds(m, l) {
      assert Holds(m', l);
    }
    if l :| l in c && l.v != v && Holds(m', l) {
      assert Holds(m, l);
    }
  }

  /** r records c: the same literals, the one of v first. */
  ghost predicate Records(r: Record, c: seq<Lit>, s: Lit) {
    Reordered(c, r) && DistinctVars(r) && r != [] && r[0] == s
  }

  lemma RecordRest(m: Model, r: Record, c: seq<Lit>, s: Lit)
    requires Records(r, c, s)
    ensures SatClause(m, r[1..]) <==> HoldsOff(m, c, s.v)
  {
    if SatClause(m, r[1..]) {
      var i :| 0 <= i < |r[1..]| && Holds(m, r[1..][i]);
      assert r[i + 1] in r && r[i + 1] in c && r[i + 1].v != r[0].v;
    }
    if HoldsOff(m, c, s.v) {
      var l :| l in c && l.v != s.v && Holds(m, l);
      assert l in r;
      var k :| 0 <= k < |r| && r[k] == l;
      assert r[1..][k - 1] == l;
    }
  }

  /** recs[i] records the i-th clause of cs. */
  ghost predicate AllRecorded(recs: seq<Record>, cs: seq<seq<Lit>>, s: Lit) {
    |recs| == |cs| && forall i :: 0 <= i < |cs| ==> Records(recs[i], cs[i], s)
  }

  lemma RecordedNonempty(recs: seq<Record>, cs: seq<seq<Lit>>, s: Lit)
    requires AllRecorded(recs, cs, s)
    ensures AllNonempty(recs)
  {
    forall i | 0 <= i < |recs|
      ensures recs[i] != []
    {
      assert Records(recs[i], cs[i], s);
    }
  }

  /** Reading the records of one side: the variable gets the value s exactly when it had it or
      some recorded clause needs it. */
  lemma {:induction false} LiftSide(m: Model, recs: seq<Record>, cs: seq<seq<Lit>>, s: Lit)
    requires AllRecorded(recs, cs, s)
    ensures AllNonempty(recs) && AgreeOff(m, Lift(m, recs), s.v)
    ensures Holds(Lift(m, recs), s) <==> Holds(m, s) || exists i :: 0 <= i < |cs| && !HoldsOff(m, cs[i], s.v)
    decreases |recs|
  {
    RecordedNonempty(recs, cs, s);
    if recs != [] {
      var last := |recs| - 1;
      assert Records(recs[last], cs[last], s);
      RecordRest(m, recs[last], cs[last], s);
      var m1 := Apply(m, recs[last]);
      assert AgreeOff(m, m1, s.v);
      assert Holds(m1, s) <==> Holds(m, s) || !HoldsOff(m, cs[last], s.v);
      forall i | 0 <= i < last
        ensures Records(recs[..last][i], cs[..last][i], s)
      {
        assert Records(recs[i], cs[i], s);
      }
      LiftSide(m1, recs[..last], cs[..last], s);
      forall i | 0 <= i < last
        ensures HoldsOff(m1, cs[..last][i], s.v) <==> HoldsOff(m, cs[i], s.v)
      {
        HoldsOffAgrees(m, m1, cs[i], s.v);
      }
      NeededSomewhere(m, m1, cs, s.v, last);
    }
  }

  lemma NeededSomewhere(m: Model, m1: Model, cs: seq<seq<Lit>>, v: nat, last: nat)
    requires last == |cs| - 1
    requires forall i :: 0 <= i < last ==> (HoldsOff(m1, cs[..last][i], v) <==> HoldsOff(m, cs[i], v))
    ensures (exists i :: 0 <= i < |cs| && !HoldsOff(m, cs[i], v)) <==>
              !HoldsOff(m, cs[last], v) || exists i :: 0 <= i < |cs[..last]| && !HoldsOff(m1, cs[..last][i], v)
  {
    if i :| 0 <= i < |cs| && !HoldsOff(m, cs[i], v) {
      if i < last {
        assert !HoldsOff(m1, cs[..last][i], v);
      }
    }
    if i :| 0 <= i < |cs[..last]| && !HoldsOff(m1, cs[..last][i], v) {
      assert !HoldsOff(m, cs[i], v);
    }
  }

  /** The records of an elimination: one side of the clauses, then the default value. */
  ghost predicate EliminationRecords(recs: seq<Record>, side: seq<seq<Lit>>, s: Lit) {
    |recs| >= 1 && AllRecorded(recs[..|recs| - 1], side, s) && recs[|recs| - 1] == [s.Neg()]
  }

  /** The backward pass over the records of an elimination. */
  lemma LiftElimination(m: Model, recs: seq<Record>, side: seq<seq<Lit>>, s: Lit)
    requires EliminationRecords(recs, side, s)
    ensures AllNonempty(recs) && AgreeOff(m, Lift(m, recs), s.v)
    ensures Holds(Lift(m, recs), s) <==> exists i :: 0 <= i < |side| && !HoldsOff(m, side[i], s.v)
  {
    var last := |recs| - 1;
    RecordedNonempty(recs[..last], side, s);
    forall i | 0 <= i < |recs|
      ensures recs[i] != []
    {
      assert i < last ==> recs[i] == recs[..last][i];
    }
    assert recs[last][1..] == [];
    var m1 := Apply(m, recs[last]);
    assert AgreeOff(m, m1, s.v) && !Holds(m1, s);
    LiftSide(m1, recs[..last], side, s);
    forall i | 0 <= i < |side|
      ensures HoldsOff(m1, side[i], s.v) <==> HoldsOff(m, side[i], s.v)
    {
      HoldsOffAgrees(m, m1, side[i], s.v);
    }
  }

  /** The variable can be resolved away: each pair of clauses clashes or has a true resolvent. */
  ghost predicate PairsHold(m: Model, side: seq<seq<Lit>>, other: seq<seq<Lit>>, v: nat) {
    forall i, j :: 0 <= i < |side| && 0 <= j < |other| ==> PairHolds(m, side[i], other[j], v)
  }

  ghost predicate PairHolds(m: Model, p: seq<Lit>, q: seq<Lit>, v: nat) {
    Clash(p, q, v) || exists l :: l in Resolvent(p, q, v) && Holds(m, l)
  }

  /** Every clause of either side holds after the backward pass. */
  lemma LiftedClauses(m: Model, recs: seq<Record>, side: seq<seq<Lit>>, other: seq<seq<Lit>>, s: Lit)
    requires EliminationRecords(recs, side, s) && PairsHold(m, side, other, s.v)
    requires forall i :: 0 <= i < |side| ==> s in side[i]
    requires forall i :: 0 <= i < |other| ==> s.Neg() in other[i]
    ensures AllNonempty(recs) && AgreeOff(m, Lift(m, recs), s.v)
    ensures forall i :: 0 <= i < |side| ==> SatClause(Lift(m, recs), side[i])
    ensures forall i :: 0 <= i < |other| ==> SatClause(Lift(m, recs), other[i])
  {
    LiftElimination(m, recs, side, s);
    var m' := Lift(m, recs);
    forall i | 0 <= i < |side|
      ensures SatClause(m', side[i])
    {
      HoldsOffAgrees(m, m', side[i], s.v);
      if HoldsOff(m', side[i], s.v) {
        var l :| l in side[i] && l.v != s.v && Holds(m', l);
        SatClauseOf(m', side[i], l);
      } else {
        SatClauseOf(m', side[i], s);
      }
    }
    forall j | 0 <= j < |other|
      ensures SatClause(m', other[j])
    {
      if Holds(m', s) {
        var i :| 0 <= i < |side| && !HoldsOff(m, side[i], s.v);
        assert PairHolds(m, side[i], other[j], s.v);
        OneHoldsWithout(m, side[i], other[j], s.v);
        assert HoldsOff(m, other[j], s.v);
        HoldsOffAgrees(m, m', other[j], s.v);
        var l :| l in other[j] && l.v != s.v && Holds(m', l);
        SatClauseOf(m', other[j], l);
      } else {
        SatClauseOf(m', other[j], s.Neg());
      }
    }
  }

  // ---------- on the clause store ----------

  function LitsOf(ca: Store, crs: seq<nat>): (r: seq<seq<Lit>>)
    requires forall i :: 0 <= i < |crs| ==> crs[i] in ca
    ensures |r| == |crs| && forall i :: 0 <= i < |crs| ==> r[i] == ca[crs[i]].lits
  {
    seq(|crs|, i requires 0 <= i < |crs| => ca[crs[i]].lits)
  }

  /** The live clauses with v, split by the sign of v. */
  ghost predicate SplitOn(p: Pre, v: nat, pos: seq<nat>, neg: seq<nat>) {
    && (forall i :: 0 <= i < |pos| ==> Alive(p.ca, pos[i]) && Lit(v, false) in p.ca[pos[i]].lits)
    && (forall i :: 0 <= i < |neg| ==> Alive(p.ca, neg[i]) && Lit(v, true) in p.ca[neg[i]].lits)
    && (forall cr :: Alive(p.ca, cr) && HasVar(p.ca[cr].lits, v) ==> cr in pos || cr in neg)
  }

  /** m satisfies the live clauses without v, and the trail. */
  ghost predicate ModelsOff(m: Model, p: Pre, v: nat) {
    && (forall cr :: Alive(p.ca, cr) && !HasVar(p.ca[cr].lits, v) ==> SatClause(m, p.ca[cr].lits))
    && TrailHolds(m, p.t)
  }

  /** Models of what is left after the elimination lift to models of what was there before. */
  lemma EliminationLifts(m: Model, p: Pre, v: nat, pos: seq<nat>, neg: seq<nat>, recs: seq<Record>, s: Lit)
    requires SplitOn(p, v, pos, neg) && !p.t.Assigned(v) && s.v == v && ModelsOff(m, p, v)
    requires PairsHold(m, LitsOf(p.ca, if s.neg then neg else pos), LitsOf(p.ca, if s.neg then pos else neg), v)
    requires EliminationRecords(recs, LitsOf(p.ca, if s.neg then neg else pos), s)
    ensures AllNonempty(recs) && Models(Lift(m, recs), p)
  {
    hide EliminationRecords, PairsHold, HasVar, Lift;
    var side, other := if s.neg then neg else pos, if s.neg then pos else neg;
    LiftedClauses(m, recs, LitsOf(p.ca, side), LitsOf(p.ca, other), s);
    var m' := Lift(m, recs);
    forall cr | Alive(p.ca, cr)
      ensures SatClause(m', p.ca[cr].lits)
    {
      if HasVar(p.ca[cr].lits, v) {
        if cr in side {
          var i :| 0 <= i < |side| && side[i] == cr;
          assert SatClause(m', LitsOf(p.ca, side)[i]);
        } else {
          var i :| 0 <= i < |other| && other[i] == cr;
          assert SatClause(m', LitsOf(p.ca, other)[i]);
        }
      } else {
        SatOff(m, m', p.ca[cr].lits, v);
      }
    }
    forall u: nat | p.t.Assigned(u)
      ensures Agrees(m', p.t, u)
    {
      assert Agrees(m, p.t, u) && u != v;
    }
  }

  lemma SatOff(m: Model, m': Model, c: seq<Lit>, v: nat)
    requires AgreeOff(m, m', v) && SatClause(m, c) && !HasVar(c, v)
    ensures SatClause(m', c)
  {
    var i :| 0 <= i < |c| && Holds(m, c[i]);
    assert c[i].v != v;
    SatClauseOf(m', c, c[i]);
  }

  /** Every model before the elimination satisfies each pair. */
  lemma PairsFollow(m: Model, p: Pre, v: nat, pos: seq<nat>, neg: seq<nat>)
    requires PreOk(p) && SplitOn(p, v, pos, neg) && Models(m, p)
    ensures PairsHold(m, LitsOf(p.ca, pos), LitsOf(p.ca, neg), v)
  {
    forall i, j | 0 <= i < |pos| && 0 <= j < |neg|
      ensures PairHolds(m, LitsOf(p.ca, pos)[i], LitsOf(p.ca, neg)[j], v)
    {
      PairFollows(m, p, v, pos[i], neg[j]);
    }
  }

  lemma PairFollows(m: Model, p: Pre, v: nat, x: nat, y: nat)
    requires PreOk(p) && Models(m, p) && Alive(p.ca, x) && Alive(p.ca, y)
    requires Lit(v, false) in p.ca[x].lits && Lit(v, true) in p.ca[y].lits
    ensures PairHolds(m, p.ca[x].lits, p.ca[y].lits, v)
  {
    var n := |p.t.assigns|;
    assert Fine(p.ca[x], n) && Fine(p.ca[y], n);
    OneSign(p.ca[x].lits, Lit(v, false));
    OneSign(p.ca[y].lits, Lit(v, true));
    ResolventFollows(m, p.ca[x].lits, p.ca[y].lits, v);
  }

  lemma OneSign(c: seq<Lit>, l: Lit)
    requires DistinctVars(c) && l in c
    ensures forall x :: x in c && x.v == l.v ==> x == l
  {
    var i :| 0 <= i < |c| && c[i] == l;
    forall x | x in c && x.v == l.v
      ensures x == l
    {
      var j :| 0 <= j < |c| && c[j] == x;
      assert i == j;
    }
  }

  // ---------- what the implication check would do to an elimination ----------

  lemma TwoLits(m: Model, x: Lit, y: Lit)
    ensures SatClause(m, [x, y]) <==> Holds(m, x) || Holds(m, y)
  {
    assert [x, y][0] == x && [x, y][1] == y;
  }
}
