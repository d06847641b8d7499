/** The steps of the preprocessor on the value level: units, removing and strengthening
    clauses, backward subsumption, adding clauses. */
module SimpSteps {
  import opened Wrappers
  import opened Cnf
  import opened TrailState
  import opened Cuts
  import Propagation
  import opened SearchSteps
  import opened Growth
  import opened PropagationQueue
  import opened ProblemClauses
  import opened Subsumption
  import opened Resolution
  import opened Lifting
  import opened Occurrences
  import opened Elimination
  import opened UnitClosure

  /** The reference of the dummy unit clause that feeds level 0 literals to backward subsumption. */
  const BWDSUB_TMPUNIT: nat := 0

  /** The queue holds references of clauses, and the dummy only while its literal l is true. */
  ghost predicate QueueOk(p: Pre, queue: seq<nat>, l: Lit) {
    forall i :: 0 <= i < |queue| ==> if queue[i] == BWDSUB_TMPUNIT then p.t.IsTrue(l) else queue[i] in p.ca
  }

  /** No live clause mentions an eliminated variable. */
  ghost predicate NoneEliminated(p: Pre, eliminated: seq<bool>) {
    && |eliminated| == |p.t.assigns|
    && forall cr :: Alive(p.ca, cr) ==> AvoidsEliminated(p.ca[cr].lits, eliminated)
  }

  ghost predicate AvoidsEliminated(c: seq<Lit>, eliminated: seq<bool>) {
    forall i :: 0 <= i < |c| ==> c[i].v < |eliminated| && !eliminated[c[i].v]
  }

  /** q keeps the clauses of p or shortens or deletes them. */
  ghost predicate Reduces(p: Pre, q: Pre) {
    && q.next == p.next && q.ca.Keys == p.ca.Keys && |q.t.assigns| == |p.t.assigns| && Continues(p.t, q.t)
    && forall cr :: Alive(q.ca, cr) ==> Alive(p.ca, cr) && forall l :: l in q.ca[cr].lits ==> l in p.ca[cr].lits
  }

  lemma ReducesAvoids(p: Pre, q: Pre, eliminated: seq<bool>)
    requires Reduces(p, q) && NoneEliminated(p, eliminated)
    ensures NoneEliminated(q, eliminated)
  {
    forall cr | Alive(q.ca, cr)
      ensures AvoidsEliminated(q.ca[cr].lits, eliminated)
    {
      assert AvoidsEliminated(p.ca[cr].lits, eliminated);
      forall i | 0 <= i < |q.ca[cr].lits|
        ensures q.ca[cr].lits[i].v < |eliminated| && !eliminated[q.ca[cr].lits[i].v]
      {
        assert q.ca[cr].lits[i] in p.ca[cr].lits;
      }
    }
  }

  lemma ReducesTransitive(p: Pre, q: Pre, r: Pre)
    requires Reduces(p, q) && Reduces(q, r)
    ensures Reduces(p, r)
  {
  }

  ghost function Size(p: Pre): nat {
    LiveLits(p.ca, p.next)
  }

  /** Exactly the clauses stored since are queued behind the others. */
  ghost predicate NewQueued(crs0: seq<nat>, queue0: seq<nat>, crs: seq<nat>, queue: seq<nat>) {
    |crs0| <= |crs| && crs[..|crs0|] == crs0 && queue == queue0 + crs[|crs0|..]
  }

  lemma NewQueuedNone(crs: seq<nat>, queue: seq<nat>)
    ensures NewQueued(crs, queue, crs, queue)
  {
    assert crs[|crs|..] == [];
  }

  lemma NewQueuedOne(crs: seq<nat>, queue: seq<nat>, cr: nat)
    ensures NewQueued(crs, queue, crs + [cr], queue + [cr])
  {
  }

  lemma NewQueuedMore(crs0: seq<nat>, queue0: seq<nat>, crs1: seq<nat>, queue1: seq<nat>, crs: seq<nat>, queue: seq<nat>)
    requires NewQueued(crs0, queue0, crs1, queue1) && NewQueued(crs1, queue1, crs, queue)
    ensures NewQueued(crs0, queue0, crs, queue)
  {
    assert crs[|crs0|..] == crs1[|crs0|..] + crs[|crs1|..];
    assert crs[..|crs0|] == crs[..|crs1|][..|crs0|];
  }

  /** What is left of the formula when the literal x is added. */
  ghost predicate AddsUnit(p: Pre, q: Pre, x: Lit, good: bool) {
    forall m: Model :: if good then Models(m, q) <==> Models(m, p) && Holds(m, x) else !(Models(m, p) && Holds(m, x))
  }

  /** The models of q are those of p, with the clause cr replaced by d; a failure means there
      are none. */
  ghost predicate Replaces(p: Pre, cr: nat, d: seq<Lit>, q: Pre, good: bool) {
    forall m: Model ::
      if good then Models(m, q) <==> ModelsBut(m, p, cr) && SatClause(m, d)
      else !(ModelsBut(m, p, cr) && SatClause(m, d))
  }

  lemma PreFacts(p: Pre)
    requires PreOk(p)
    ensures p.t.Wf(|p.t.assigns|) && p.t.lim == [] && FineList(p.ca, p.clauses, |p.t.assigns|)
    ensures |p.occurs| == |p.dirty| == |p.t.assigns|
    ensures forall cr :: Alive(p.ca, cr) ==> cr in p.clauses
  {
    hide OccList, Indexed;
  }

  lemma StaysTrue(t: Trail, u: Trail, x: Lit)
    requires Continues(t, u) && t.IsTrue(x)
    ensures u.IsTrue(x)
  {
    assert t.Assigned(x.v);
  }

  lemma FalseUnit(p: Pre, x: Lit)
    requires p.t.IsFalse(x)
    ensures AddsUnit(p, p, x, false)
  {
    forall m: Model
      ensures !(Models(m, p) && Holds(m, x))
    {
      if Models(m, p) {
        TrueHolds(m, p.t, x);
      }
    }
  }

  lemma PushContinuesAll(p: Pre, x: Lit)
    requires p.t.Wf(|p.t.assigns|) && p.t.IsUndef(x)
    ensures Continues(p.t, p.t.Push(x, None))
  {
  }

  /** p1 is p0 with x on the trail. */
  lemma UnitAdded(p0: Pre, p1: Pre, x: Lit)
    requires p0.t.Wf(|p0.t.assigns|)
    requires (p1 == p0 && p0.t.IsTrue(x)) || (p0.t.IsUndef(x) && p1 == p0.(t := p0.t.Push(x, None)))
    ensures AddsUnit(p0, p1, x, true)
  {
    forall m: Model
      ensures Models(m, p1) <==> Models(m, p0) && Holds(m, x)
    {
      if p1 == p0 {
        if Models(m, p0) {
          TrueHolds(m, p0.t, x);
        }
      } else {
        PushHolds(m, p0.t, |p0.t.assigns|, x, None);
      }
    }
  }

  lemma Propagated(p0: Pre, p1: Pre, t: Trail, conflict: bool, x: Lit)
    requires PreOk(p1) && AddsUnit(p0, p1, x, true) && Continues(p0.t, p1.t) && p1 == p0.(t := p1.t)
    requires t.Wf(|p1.t.assigns|) && Continues(p1.t, t) && Sound(p1.ca, p1.t, t, conflict)
    ensures PreOk(p1.(t := t)) && Continues(p0.t, t) && AddsUnit(p0, p1.(t := t), x, !conflict)
  {
    hide PreOk;
    PreFacts(p1);
    TrailOkAgain(p1, t);
    var q := p1.(t := t);
    forall m: Model
      ensures !conflict ==> (Models(m, q) <==> Models(m, p1))
    {
      if TrailHolds(m, t) {
        ContinuesHolds(m, p1.t, t);
      }
    }
  }

  lemma PreClause(p: Pre, cr: nat)
    requires PreOk(p) && Alive(p.ca, cr)
    ensures Fine(p.ca[cr], |p.t.assigns|) && |p.dirty| == |p.t.assigns| && cr != BWDSUB_TMPUNIT
  {
    hide OccList, Indexed;
  }

  lemma DeletingReduces(p: Pre, cr: nat)
    requires PreOk(p) && Alive(p.ca, cr)
    ensures Reduces(p, Deleting(p, cr)) && Size(Deleting(p, cr)) < Size(p)
  {
    hide OccList, Indexed;
    assert Fine(p.ca[cr], |p.t.assigns|);
    LiveLitsChange(p.ca, p.next, cr, p.ca[cr].(deleted := true));
  }

  lemma ShortenedReduces(p: Pre, cr: nat, l: Lit)
    requires PreOk(p) && Alive(p.ca, cr) && l in p.ca[cr].lits && |p.ca[cr].lits| > 2 && l.v < |p.occurs|
    ensures var q := Shortened(p, cr, l); var d := RemoveFirst(p.ca[cr].lits, l);
            Reduces(p, q) && Size(q) < Size(p) && Replaces(p, cr, d, q, true)
  {
    hide OccList, Indexed;
    assert Fine(p.ca[cr], |p.t.assigns|);
    var d := RemoveFirst(p.ca[cr].lits, l);
    RemoveFirstVars(p.ca[cr].lits, l);
    LitsDistinct(p.ca[cr].lits);
    RemoveFirstExact(p.ca[cr].lits, l);
    LiveLitsChange(p.ca, p.next, cr, Cls(d, false, Abstraction(d)));
    var q := Shortened(p, cr, l);
    forall m: Model
      ensures Models(m, q) <==> ModelsBut(m, p, cr) && SatClause(m, d)
    {
      OthersSame(m, p, cr, l);
      SplitModels(m, q, cr);
    }
  }

  /** A clause of two literals is deleted; what is left is one literal. */
  lemma BinaryShrunk(p: Pre, cr: nat, l: Lit, q: Pre)
    requires PreOk(p) && Alive(p.ca, cr) && l in p.ca[cr].lits && |p.ca[cr].lits| == 2
    requires PreOk(q) && q == Deleting(p, cr)
    ensures var d := RemoveFirst(p.ca[cr].lits, l);
            && |d| == 1 && d[0].v < |q.t.assigns| && d[0] in p.ca[cr].lits && Without(p.ca[cr].lits, d, l)
            && PreOk(q.(ca := q.ca[cr := Cls(d, true, Abstraction(d))]))
  {
    PreClause(p, cr);
    var d := RemoveFirst(p.ca[cr].lits, l);
    RemoveFirstVars(p.ca[cr].lits, l);
    LitsDistinct(p.ca[cr].lits);
    RemoveFirstExact(p.ca[cr].lits, l);
    assert d[0] in d;
    DeadOk(q, cr, Cls(d, true, Abstraction(d)));
  }

  /** What a deleted record says does not matter. */
  lemma DeadOk(p: Pre, cr: nat, c: Cls)
    requires PreOk(p) && cr in p.ca && !Alive(p.ca, cr) && c.deleted
    ensures PreOk(p.(ca := p.ca[cr := c]))
  {
    var q := p.(ca := p.ca[cr := c]);
    forall x | Alive(q.ca, x)
      ensures Fine(q.ca[x], |p.t.assigns|) && Indexed(q, x) && x in q.clauses
    {
      assert Alive(p.ca, x) && Indexed(p, x);
    }
    forall v | 0 <= v < |p.t.assigns|
      ensures OccList(q.ca, q.occurs[v], v, q.dirty[v])
    {
      assert OccList(p.ca, p.occurs[v], v, p.dirty[v]);
      forall i | 0 <= i < |q.occurs[v]|
        ensures OccEntry(q.ca, q.occurs[v][i], v, q.dirty[v])
      {
        assert OccEntry(p.ca, p.occurs[v][i], v, p.dirty[v]);
      }
    }
  }

  lemma BinaryReplaced(p: Pre, cr: nat, l: Lit, p2: Pre, q: Pre, good: bool)
    requires Alive(p.ca, cr) && |RemoveFirst(p.ca[cr].lits, l)| == 1
    requires var d := RemoveFirst(p.ca[cr].lits, l);
             && p2 == Deleting(p, cr).(ca := Deleting(p, cr).ca[cr := Cls(d, true, Abstraction(d))])
             && q == p2.(t := q.t) && AddsUnit(p2, q, d[0], good)
    requires Reduces(p, Deleting(p, cr)) && Size(Deleting(p, cr)) < Size(p) && Continues(p2.t, q.t)
    ensures Replaces(p, cr, RemoveFirst(p.ca[cr].lits, l), q, good)
    ensures Reduces(p, q) && Size(q) < Size(p)
  {
    hide RemoveFirst, Abstraction, LiveLits, Models, ModelsBut;
    var d := RemoveFirst(p.ca[cr].lits, l);
    SameSize(Deleting(p, cr).ca, p2.ca, p.next);
    forall m: Model
      ensures Models(m, p2) <==> ModelsBut(m, p, cr)
      ensures SatClause(m, d) <==> Holds(m, d[0])
    {
      DeadModels(m, p, cr, p2);
    }
  }

  lemma DeadModels(m: Model, p: Pre, cr: nat, q: Pre)
    requires Alive(p.ca, cr) && q.t == p.t && q.ca.Keys == p.ca.Keys && !Alive(q.ca, cr)
    requires forall x :: x in p.ca && x != cr ==> q.ca[x] == p.ca[x]
    ensures Models(m, q) <==> ModelsBut(m, p, cr)
  {
    if Models(m, q) {
      forall x | Alive(p.ca, x) && x != cr
        ensures SatClause(m, p.ca[x].lits)
      {
        assert Alive(q.ca, x);
      }
    }
    if ModelsBut(m, p, cr) {
      forall x | Alive(q.ca, x)
        ensures SatClause(m, q.ca[x].lits)
      {
        assert Alive(p.ca, x);
      }
    }
  }

  lemma {:induction false} SameSize(ca: Store, ca': Store, k: nat)
    requires forall cr :: Alive(ca, cr) ==> Alive(ca', cr) && ca[cr].lits == ca'[cr].lits
    requires forall cr :: Alive(ca', cr) ==> Alive(ca, cr)
    ensures LiveLits(ca, k) == LiveLits(ca', k)
    decreases k
  {
    if k > 0 {
      SameSize(ca, ca', k - 1);
    }
  }

  // ---------- cleaning occurrence lists ----------

  function AliveOnly(ca: Store, list: seq<nat>): seq<nat>
    requires forall i :: 0 <= i < |list| ==> list[i] in ca
  {
    if list == [] then []
    else
      var before := AliveOnly(ca, list[..|list| - 1]);
      if ca[list[|list| - 1]].deleted then before else before + [list[|list| - 1]]
  }

  /** OccLists::clean on one list. */
  method CleanOcc(ca: Store, list: seq<nat>) returns (kept: seq<nat>)
    requires forall i :: 0 <= i < |list| ==> list[i] in ca
    ensures kept == AliveOnly(ca, list)
  {
    kept := [];
    for i := 0 to |list|
      invariant kept == AliveOnly(ca, list[..i])
    {
      assert list[..i + 1][..i] == list[..i];
      if !ca[list[i]].deleted {
        kept := kept + [list[i]];
      }
    }
    assert list[..|list|] == list;
  }

  lemma {:induction false} AliveOnlyMember(ca: Store, list: seq<nat>, x: nat)
    requires forall i :: 0 <= i < |list| ==> list[i] in ca
    ensures x in AliveOnly(ca, list) <==> x in list && Alive(ca, x)
  {
    if list != [] {
      var last := |list| - 1;
      AliveOnlyMember(ca, list[..last], x);
      assert list == list[..last] + [list[last]];
    }
  }

  lemma {:induction false} AliveOnlyDistinct(ca: Store, list: seq<nat>)
    requires (forall i :: 0 <= i < |list| ==> list[i] in ca) && Distinct(list)
    ensures Distinct(AliveOnly(ca, list))
  {
    if list != [] {
      var last := |list| - 1;
      AliveOnlyDistinct(ca, list[..last]);
      var before := AliveOnly(ca, list[..last]);
      forall i | 0 <= i < |before|
        ensures before[i] != list[last]
      {
        AliveOnlyMember(ca, list[..last], before[i]);
        assert before[i] in before && before[i] in list[..last];
      }
    }
  }

  lemma PreList(p: Pre, v: nat)
    requires PreOk(p) && v < |p.occurs|
    ensures |p.dirty| == |p.occurs| && OccList(p.ca, p.occurs[v], v, p.dirty[v])
    ensures forall i :: 0 <= i < |p.occurs[v]| ==> p.occurs[v][i] in p.ca
    ensures !p.dirty[v] ==> forall i :: 0 <= i < |p.occurs[v]| ==> Alive(p.ca, p.occurs[v][i])
  {
    hide Indexed, Fine;
    assert OccList(p.ca, p.occurs[v], v, p.dirty[v]);
    forall i | 0 <= i < |p.occurs[v]|
      ensures p.occurs[v][i] in p.ca && (!p.dirty[v] ==> Alive(p.ca, p.occurs[v][i]))
    {
      assert OccEntry(p.ca, p.occurs[v][i], v, p.dirty[v]);
    }
  }

  /** Cleaning the list of v. */
  lemma CleanedOk(p: Pre, v: nat)
    requires PreOk(p) && v < |p.occurs|
    ensures forall i :: 0 <= i < |p.occurs[v]| ==> p.occurs[v][i] in p.ca
    ensures |p.dirty| == |p.occurs| &&
            PreOk(p.(occurs := p.occurs[v := AliveOnly(p.ca, p.occurs[v])], dirty := p.dirty[v := false]))
  {
    PreList(p, v);
    var kept := AliveOnly(p.ca, p.occurs[v]);
    var q := p.(occurs := p.occurs[v := kept], dirty := p.dirty[v := false]);
    AliveOnlyDistinct(p.ca, p.occurs[v]);
    forall x | Alive(q.ca, x)
      ensures Indexed(q, x)
    {
      assert Indexed(p, x);
      AliveOnlyMember(p.ca, p.occurs[v], x);
    }
    forall i | 0 <= i < |kept|
      ensures OccEntry(q.ca, kept[i], v, false)
    {
      AliveOnlyMember(p.ca, p.occurs[v], kept[i]);
      var k :| 0 <= k < |p.occurs[v]| && p.occurs[v][k] == kept[i];
      assert OccEntry(p.ca, p.occurs[v][k], v, p.dirty[v]);
    }
    forall u | 0 <= u < |p.t.assigns|
      ensures OccList(q.ca, q.occurs[u], u, q.dirty[u])
    {
      assert OccList(p.ca, p.occurs[u], u, p.dirty[u]);
    }
  }

  // ---------- backward subsumption ----------

  /** c may be used to simplify other clauses: it is a live clause or a unit on the trail. */
  ghost predicate Premise(p: Pre, cr: nat, c: seq<Lit>) {
    && c != [] && DistinctVars(c)
    && if cr == BWDSUB_TMPUNIT then |c| == 1 && p.t.IsTrue(c[0]) else Alive(p.ca, cr) && p.ca[cr].lits == c
  }

  lemma PremiseHolds(m: Model, p: Pre, cr: nat, c: seq<Lit>, x: nat)
    requires Premise(p, cr, c) && x != cr && ModelsBut(m, p, x)
    ensures SatClause(m, c)
  {
    if cr == BWDSUB_TMPUNIT {
      TrueHolds(m, p.t, c[0]);
    }
  }

  lemma CandidateShape(c: Cls, n: nat)
    requires Fine(c, n)
    ensures DistinctVars(c.lits) && c.abs == Abstraction(c.lits) && |c.lits| >= 2
  {
  }

  lemma ReducesReflexive(p: Pre)
    ensures Reduces(p, p)
  {
  }

  lemma SameReflexive(p: Pre)
    ensures SameModels(p, p)
  {
  }

  lemma SameTransitive(p: Pre, q: Pre, r: Pre)
    requires SameModels(p, q)
    ensures SameModels(q, r) ==> SameModels(p, r)
    ensures Refuted(q) ==> Refuted(p)
  {
  }

  lemma SubsumeStep(p: Pre, cr: nat, c: seq<Lit>, x: nat)
    requires Premise(p, cr, c) && x != cr && Alive(p.ca, x) && Subsumes(c, p.ca[x].lits)
    ensures SameModels(p, Deleting(p, x))
  {
    forall m: Model | Models(m, Deleting(p, x))
      ensures SatClause(m, p.ca[x].lits)
    {
      DeadModels(m, p, x, Deleting(p, x));
      PremiseHolds(m, p, cr, c, x);
      SubsumedFollows(m, c, p.ca[x].lits);
    }
    DeletingModels(p, x);
  }

  lemma StrengthenStep(p: Pre, cr: nat, c: seq<Lit>, x: nat, l: Lit, q: Pre, good: bool)
    requires Premise(p, cr, c) && x != cr && Alive(p.ca, x) && DistinctVars(p.ca[x].lits)
    requires SubsumesBut(c, p.ca[x].lits, l) && Replaces(p, x, RemoveFirst(p.ca[x].lits, l.Neg()), q, good)
    ensures if good then SameModels(p, q) else Refuted(p)
  {
    var d := RemoveFirst(p.ca[x].lits, l.Neg());
    RemoveFirstVars(p.ca[x].lits, l.Neg());
    forall m: Model
      ensures Models(m, p) <==> ModelsBut(m, p, x) && SatClause(m, d)
    {
      SplitModels(m, p, x);
      if ModelsBut(m, p, x) {
        PremiseHolds(m, p, cr, c, x);
        StrengthenedEquivalent(m, c, p.ca[x].lits, l, d);
      }
    }
  }

  lemma PremiseStays(p: Pre, q: Pre, cr: nat, c: seq<Lit>)
    requires Premise(p, cr, c) && Reduces(p, q) && (cr in p.ca && cr != BWDSUB_TMPUNIT ==> q.ca[cr] == p.ca[cr])
    ensures Premise(q, cr, c)
  {
    if cr == BWDSUB_TMPUNIT {
      assert p.t.Assigned(c[0].v);
    }
  }

  lemma QueuedStays(p: Pre, q: Pre, queue: seq<nat>, l: Lit, x: nat)
    requires Reduces(p, q) && x in p.ca && x != BWDSUB_TMPUNIT
    ensures QueueOk(p, queue, l) ==> QueueOk(q, queue + [x], l) && QueueOk(q, queue, l)
  {
    StillTrue(p, q, l);
  }

  /** Clause x lost its literal l: a clause of two literals is gone, a longer one is shorter. */
  ghost predicate Strengthened(p: Pre, q: Pre, x: nat, l: Lit)
    requires Alive(p.ca, x)
  {
    && (forall y :: y in q.ca && y in p.ca && y != x ==> q.ca[y] == p.ca[y])
    && (|p.ca[x].lits| == 2 ==> !Alive(q.ca, x) && q.occurs == p.occurs)
    && (|p.ca[x].lits| > 2 ==> l.v < |p.occurs| && q == Shortened(p, x, l))
  }

  /** Where the scan goes on: a clause that left the list of best is replaced by the next one. */
  lemma ShortenedAt(p: Pre, x: nat, l: Lit, best: nat, j: nat, q: Pre)
    requires PreOk(p) && best < |p.occurs| && j < |p.occurs[best]| && p.occurs[best][j] == x && Alive(p.ca, x)
    requires |p.ca[x].lits| == 2 ==> q.occurs == p.occurs
    requires |p.ca[x].lits| > 2 ==> l.v < |p.occurs| && q == Shortened(p, x, l)
    ensures best < |q.occurs| && (if l.v == best then j else j + 1) <= |q.occurs[best]|
  {
    PreClause(p, x);
    PreList(p, best);
    if |p.ca[x].lits| > 2 && l.v == best {
      RemoveFirstExact(p.occurs[best], x);
    }
  }

  lemma PremiseShape(p: Pre, cr: nat, c: seq<Lit>)
    requires Premise(p, cr, c)
    ensures c != [] && DistinctVars(c)
  {
  }

  lemma PremiseKept(p: Pre, q: Pre, cr: nat, c: seq<Lit>, x: nat)
    requires Premise(p, cr, c) && Reduces(p, q) && x != cr && forall y :: y in q.ca && y in p.ca && y != x ==> q.ca[y] == p.ca[y]
    ensures Premise(q, cr, c)
  {
    PremiseStays(p, q, cr, c);
  }

  lemma DeletedAt(p: Pre, x: nat, best: nat, j: nat)
    requires x in p.ca && best < |p.occurs| && j < |p.occurs[best]|
    ensures Deleting(p, x).occurs == p.occurs
  {
  }

  lemma LookedUp(p: Pre, q: Pre, cr: nat, c: seq<Lit>)
    requires Premise(p, cr, c) && q == p.(occurs := q.occurs, dirty := q.dirty)
    ensures Premise(q, cr, c) && Reduces(p, q) && SameModels(p, q) && Size(q) == Size(p)
    ensures forall queue, l :: QueueOk(p, queue, l) ==> QueueOk(q, queue, l)
  {
  }

  lemma UnitPremise(p: Pre, l: Lit)
    requires p.t.IsTrue(l) && |p.occurs| == |p.t.assigns|
    ensures Premise(p, BWDSUB_TMPUNIT, [l]) && l.v < |p.occurs| && forall v :: HasVar([l], v) ==> v == l.v
  {
  }

  lemma ClausePremise(p: Pre, cr: nat)
    requires PreOk(p) && Alive(p.ca, cr)
    ensures Premise(p, cr, p.ca[cr].lits) && p.ca[cr].abs == Abstraction(p.ca[cr].lits) && p.ca[cr].lits != []
    ensures forall i :: 0 <= i < |p.ca[cr].lits| ==> p.ca[cr].lits[i].v < |p.occurs|
  {
    PreClause(p, cr);
  }

  lemma StillTrue(p: Pre, q: Pre, l: Lit)
    requires Reduces(p, q)
    ensures p.t.IsTrue(l) ==> q.t.IsTrue(l)
    ensures |p.t.lits| <= |q.t.lits|
  {
    if p.t.IsTrue(l) {
      assert p.t.Assigned(l.v);
    }
  }

  lemma SizeOf(p: Pre, q: Pre)
    ensures q.ca == p.ca && q.next == p.next ==> Size(q) == Size(p)
  {
  }

  lemma OnTrailIsTrue(t: Trail, n: nat, i: nat)
    requires t.Wf(n) && i < |t.lits|
    ensures t.IsTrue(t.lits[i])
  {
  }

  // ---------- adding clauses ----------

  /** q has the clauses of p and perhaps one more made of literals of ps, and a longer trail. */
  ghost predicate Gains(p: Pre, q: Pre, ps: seq<Lit>) {
    && p.next <= q.next && |q.t.assigns| == |p.t.assigns| && |q.occurs| == |p.occurs| && Continues(p.t, q.t)
    && (forall x :: x in p.ca ==> x in q.ca && q.ca[x] == p.ca[x])
    && (forall x :: x in q.ca && x !in p.ca ==> forall l :: l in q.ca[x].lits ==> l in ps)
    && (forall u :: 0 <= u < |p.occurs| && !HasVar(ps, u) ==> q.occurs[u] == p.occurs[u])
    && q.dirty == p.dirty
  }

  /** The models of q are those of p that satisfy ps; a failure means there are none. */
  ghost predicate Adds(p: Pre, ps: seq<Lit>, q: Pre, good: bool) {
    forall m: Model ::
      if good then Models(m, q) <==> Models(m, p) && SatClause(m, ps) else !(Models(m, p) && SatClause(m, ps))
  }

  /** m satisfies all but the clauses in ex, and the trail. */
  ghost predicate ModelsExcept(m: Model, p: Pre, ex: set<nat>) {
    (forall x :: Alive(p.ca, x) && x !in ex ==> SatClause(m, p.ca[x].lits)) && TrailHolds(m, p.t)
  }

  /** Whichever clauses of p are dropped later, the rest of q still says ps. */
  ghost predicate Accounts(p: Pre, ps: seq<Lit>, q: Pre) {
    forall m: Model, ex: set<nat> :: ex <= p.ca.Keys && ModelsExcept(m, q, ex) ==> ModelsExcept(m, p, ex) && SatClause(m, ps)
  }

  /** ps contains the resolvent of two live clauses. */
  ghost predicate Resolves(p: Pre, ps: seq<Lit>) {
    exists x, y, v :: ResolvesFrom(p.ca, p.t, ps, x, y, v)
  }

  lemma GainsReflexive(p: Pre, ps: seq<Lit>)
    ensures Gains(p, p, ps)
  {
  }

  lemma ImpliedAdds(p: Pre, ps: seq<Lit>)
    requires forall m: Model :: ClausesHold(m, p.ca) && TrailHolds(m, p.t) ==> SatClause(m, ps)
    ensures Adds(p, ps, p, true)
  {
  }

  lemma SortedRange(c: seq<Lit>, d: seq<Lit>, n: nat)
    requires SameLits(c, d) && InRange(c, n)
    ensures InRange(d, n)
  {
    forall i | 0 <= i < |d|
      ensures d[i].v < n
    {
      assert d[i] in c;
    }
  }

  lemma RedundantAddsTo(p: Pre, ps: seq<Lit>, d: seq<Lit>)
    requires SameLits(ps, d) && exists l :: l in d && (p.t.IsTrue(l) || l.Neg() in d)
    ensures Adds(p, ps, p, true) && Accounts(p, ps, p) && OpenTrue(p.t, ps)
  {
    var l :| l in d && (p.t.IsTrue(l) || l.Neg() in d);
    assert l in ps && (l.Neg() in d ==> l.Neg() in ps);
    forall m: Model | TrailHolds(m, p.t)
      ensures SatClause(m, ps)
    {
      TrueHolds(m, p.t, l);
      if Holds(m, l) {
        SatClauseOf(m, ps, l);
      } else {
        SatClauseOf(m, ps, l.Neg());
      }
    }
  }

  lemma NotOpenTrue(t: Trail, ps: seq<Lit>, d: seq<Lit>, kept: seq<Lit>)
    requires SameLits(ps, d) && Normalised(t, d, kept, |d|)
    ensures !OpenTrue(t, ps)
  {
    assert d[..|d|] == d;
    forall l | l in ps
      ensures !t.IsTrue(l) && l.Neg() !in ps
    {
      assert l in d && (l.Neg() in ps ==> l.Neg() in d);
      if l in kept {
        NotBothKept(kept, l);
      }
    }
  }

  lemma NotBothKept(kept: seq<Lit>, l: Lit)
    requires l in kept && forall j, k :: 0 <= j < k < |kept| ==> kept[j].v < kept[k].v
    ensures l.Neg() !in kept
  {
    var i :| 0 <= i < |kept| && kept[i] == l;
    forall k | 0 <= k < |kept|
      ensures kept[k] != l.Neg()
    {
      assert k < i || i < k || k == i;
    }
  }

  lemma GainsSize(p: Pre, q: Pre, ps: seq<Lit>)
    requires Gains(p, q, ps)
    ensures p.next <= q.next
  {
  }

  /** Where the trail holds, the normalised clause says what the clause says. */
  lemma KeptEquivalent(p: Pre, ps: seq<Lit>, d: seq<Lit>, kept: seq<Lit>)
    requires SameLits(ps, d) && Normalised(p.t, d, kept, |d|)
    ensures forall m: Model :: TrailHolds(m, p.t) ==> (SatClause(m, ps) <==> SatClause(m, kept))
  {
    assert d[..|d|] == d;
    forall m: Model | TrailHolds(m, p.t)
      ensures SatClause(m, ps) <==> SatClause(m, kept)
    {
      if SatClause(m, ps) {
        var i :| 0 <= i < |ps| && Holds(m, ps[i]);
        assert ps[i] in ps && ps[i] in d;
        TrueHolds(m, p.t, ps[i]);
        SatClauseOf(m, kept, ps[i]);
      }
      if SatClause(m, kept) {
        NormalisedAdds(m, ps, d, kept, p.t);
      }
    }
  }

  lemma KeptShape(p: Pre, ps: seq<Lit>, d: seq<Lit>, kept: seq<Lit>)
    requires SameLits(ps, d) && Normalised(p.t, d, kept, |d|)
    ensures DistinctVars(kept) && (forall i :: 0 <= i < |kept| ==> kept[i].v < |p.t.assigns|)
    ensures forall l :: l in kept ==> l in ps
  {
    forall l | l in kept
      ensures l in ps
    {
      var k :| 0 <= k < |kept| && kept[k] == l;
      assert d[..|d|] == d;
    }
  }

  lemma EmptyAdds(p: Pre, ps: seq<Lit>, kept: seq<Lit>)
    requires kept == [] && forall m: Model :: TrailHolds(m, p.t) ==> (SatClause(m, ps) <==> SatClause(m, kept))
    ensures Adds(p, ps, p, false)
  {
  }

  lemma UnitAddsTo(p: Pre, ps: seq<Lit>, kept: seq<Lit>, q: Pre, good: bool)
    requires |kept| == 1 && AddsUnit(p, q, kept[0], good) && q == p.(t := q.t) && Continues(p.t, q.t)
    requires good ==> q.t.IsTrue(kept[0])
    requires forall m: Model :: TrailHolds(m, p.t) ==> (SatClause(m, ps) <==> SatClause(m, kept))
    ensures Adds(p, ps, q, good) && (good ==> Accounts(p, ps, q))
  {
    forall m: Model
      ensures SatClause(m, kept) <==> Holds(m, kept[0])
    {
    }
    if good {
      forall m: Model, ex: set<nat> | ex <= p.ca.Keys && ModelsExcept(m, q, ex)
        ensures ModelsExcept(m, p, ex) && SatClause(m, ps)
      {
        ContinuesHolds(m, p.t, q.t);
        TrueHolds(m, q.t, kept[0]);
        assert SatClause(m, kept);
      }
    }
  }

  lemma TrailGains(p: Pre, q: Pre, ps: seq<Lit>)
    requires q == p.(t := q.t) && Continues(p.t, q.t)
    ensures Gains(p, q, ps) && Reduces(p, q)
  {
  }

  lemma QueueStays(p: Pre, q: Pre, queue: seq<nat>, l: Lit)
    requires QueueOk(p, queue, l) && p.ca.Keys <= q.ca.Keys && Continues(p.t, q.t)
    ensures QueueOk(q, queue, l)
  {
    if p.t.IsTrue(l) {
      StaysTrue(p.t, q.t, l);
    }
  }

  lemma StoredAddsTo(p: Pre, ps: seq<Lit>, kept: seq<Lit>)
    requires |kept| >= 2 && p.next !in p.ca && DistinctVars(kept) && forall l :: l in kept ==> l in ps
    requires forall m: Model :: TrailHolds(m, p.t) ==> (SatClause(m, ps) <==> SatClause(m, kept))
    ensures var q := StoringClause(p, kept); Adds(p, ps, q, true) && Accounts(p, ps, q) && Gains(p, q, ps)
  {
    var q := StoringClause(p, kept);
    forall m: Model
      ensures Models(m, q) <==> Models(m, p) && SatClause(m, ps)
    {
      StoringModels(m, p, kept);
    }
    forall m: Model, ex: set<nat> | ex <= p.ca.Keys && ModelsExcept(m, q, ex)
      ensures ModelsExcept(m, p, ex) && SatClause(m, ps)
    {
      assert Alive(q.ca, p.next) && p.next !in ex;
      forall x | Alive(p.ca, x) && x !in ex
        ensures SatClause(m, p.ca[x].lits)
      {
        assert Alive(q.ca, x);
      }
    }
    forall u | 0 <= u < |p.occurs| && !HasVar(ps, u)
      ensures q.occurs[u] == p.occurs[u]
    {
      EnteredExact(p.occurs, p.next, kept, u);
      SubsetVars(kept, ps, u);
    }
  }

  lemma SubsetVars(c: seq<Lit>, d: seq<Lit>, u: nat)
    requires forall l :: l in c ==> l in d
    ensures HasVar(c, u) ==> HasVar(d, u)
  {
    if HasVar(c, u) {
      var j :| 0 <= j < |c| && c[j].v == u;
      assert c[j] in c && c[j] in d;
      var k :| 0 <= k < |d| && d[k] == c[j];
    }
  }

  lemma StoredQueue(p: Pre, kept: seq<Lit>, queue: seq<nat>, l: Lit)
    requires QueueOk(p, queue, l) && p.next > 0
    ensures QueueOk(StoringClause(p, kept), queue + [p.next], l)
  {
  }
}
