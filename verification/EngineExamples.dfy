/** Inputs on which the engine does less than its comments say. */
module EngineExamples {
  import opened Wrappers
  import opened Cnf
  import opened TrailState
  import opened ClauseDb
  import opened Cuts
  import opened Invariants
  import opened Propagation
  import opened Visits
  import opened Attach
  import opened PropagationQueue
  import opened SearchSteps
  import opened Growth
  import opened Engine

  // ---------- small states ----------

  /** n unassigned variables. */
  function WideTrail(n: nat): (t: Trail)
    ensures |t.assigns| == n && t.lits == [] && t.lim == [] && forall v :: 0 <= v < n ==> t.assigns[v] == LUndef
  {
    if n == 0 then Trail([], [], [], [], [], []) else Wider(WideTrail(n - 1))
  }

  function WideDb(n: nat): (db: Db)
    ensures db.ca == map[] && db.next == 0
  {
    if n == 0 then Db(map[], 0, map[], map[], map[]) else WiderDb(WideDb(n - 1), n - 1)
  }

  lemma {:induction false} WideInv(n: nat)
    ensures Inv(WideTrail(n), WideDb(n), Dirt([], [], []), Problem({}, map[]), 0)
  {
    if n == 0 {
      EmptyInv();
    } else {
      WideInv(n - 1);
      WiderInv(WideTrail(n - 1), WideDb(n - 1), Dirt([], [], []), Problem({}, map[]), 0);
    }
  }

  lemma {:induction false} GivenInv(n: nat, cs: seq<seq<Lit>>)
    ensures Inv(WideTrail(n), WideDb(n), Dirt([], [], []), Problem(Given(cs), map[]), 0)
    decreases |cs|
  {
    if cs == [] {
      WideInv(n);
      assert Given(cs) == {};
    } else {
      var last := |cs| - 1;
      GivenInv(n, cs[..last]);
      AddedInv(WideTrail(n), WideDb(n), Dirt([], [], []), Problem(Given(cs[..last]), map[]), 0, cs[last]);
      assert cs == cs[..last] + [cs[last]];
      assert Given(cs) == Given(cs[..last]) + {cs[last]};
    }
  }

  ghost function Given(cs: seq<seq<Lit>>): set<seq<Lit>> {
    set c | c in cs
  }

  ghost predicate Ok(s: Solver)
    reads s`tr, s`db, s`dirt, s`problem, s`qhead
  {
    Inv(s.tr, s.db, s.dirt, s.problem, s.qhead)
  }

  /** A solver with n variables that was given cs and has stored nothing yet. */
  method Blank(n: nat, ghost cs: seq<seq<Lit>>) returns (s: Solver)
    ensures fresh(s) && Ok(s) && s.tr == WideTrail(n) && s.db == WideDb(n) && s.dirt == Dirt([], [], [])
    ensures s.problem == Problem(Given(cs), map[]) && s.qhead == 0
  {
    hide Inv;
    s := new Solver();
    GivenInv(n, cs);
    s.tr, s.db, s.dirt, s.qhead, s.problem := WideTrail(n), WideDb(n), Dirt([], [], []), 0, Problem(Given(cs), map[]);
  }

  /** Stores and attaches a clause. */
  method Store(s: Solver, rec: ClauseRec) returns (cr: nat)
    requires Ok(s) && ClauseOk(rec, |s.tr.assigns|) && Entails(s.problem.clauses, rec.lits)
    requires !rec.deleted && !rec.oneWatched && Quiet(s.tr, rec)
    modifies s`db, s`problem
    ensures Ok(s) && s.db.ca == old(s.db).ca[cr := rec] && cr == old(s.db).next < s.db.next
    ensures s.problem == Storing(old(s.problem), cr, rec)
  {
    hide Inv, Entails, ClauseOk, Quiet;
    StoreStep(s.tr, s.db, s.dirt, s.problem, s.qhead, rec);
    RecShape(rec, |s.tr.assigns|);
    cr := s.AllocClause(rec);
    s.AttachClause(cr);
  }

  lemma RecShape(rec: ClauseRec, n: nat)
    requires ClauseOk(rec, n)
    ensures |rec.lits| >= 2
  {
  }

  /** The record of a problem clause. */
  function Own(c: seq<Lit>): ClauseRec {
    ClauseRec(c, false, false, false, false, false)
  }

  lemma GivenEntails(cs: seq<seq<Lit>>, i: nat)
    requires i < |cs|
    ensures Entails(Given(cs), cs[i])
  {
    assert cs[i] in Given(cs);
  }

  // ---------- propagation may leave literals in the queue ----------

  /** (not p or q), (not p or r) and (not p or not r). */
  function Fork(): (cs: seq<seq<Lit>>)
    ensures |cs| == 3
  {
    var p, q, r := Lit(0, false), Lit(1, false), Lit(2, false);
    [[p.Neg(), q], [p.Neg(), r], [p.Neg(), r.Neg()]]
  }

  lemma ForkShape(t: Trail)
    requires t == WideTrail(3)
    ensures forall i :: 0 <= i < 3 ==> ClauseOk(Own(Fork()[i]), 3) && Quiet(t, Own(Fork()[i])) && Entails(Given(Fork()), Fork()[i])
  {
    forall i | 0 <= i < 3
      ensures ClauseOk(Own(Fork()[i]), 3) && Quiet(t, Own(Fork()[i])) && Entails(Given(Fork()), Fork()[i])
    {
      GivenEntails(Fork(), i);
    }
  }

  /** The three clauses are what is stored. */
  ghost predicate ForkStore(store: map<nat, Content>, crs: seq<nat>) {
    && |crs| == 3 && store.Keys == {crs[0], crs[1], crs[2]}
    && forall i :: 0 <= i < 3 ==> store[crs[i]] == ContentOf(Own(Fork()[i]))
  }

  lemma SmallClause(c: ClauseRec, n: nat, x: Lit, y: Lit)
    requires ClauseOk(c, n) && ContentOf(c) == ContentOf(Own([x, y]))
    ensures |c.lits| == 2 && !c.imported && !c.deleted && (c.lits == [x, y] || c.lits == [y, x])
  {
    assert c.lits[0] in ContentOf(c).lits && c.lits[1] in ContentOf(c).lits;
    assert ContentOf(Own([x, y])).lits == {x, y} by {
      assert [x, y][0] == x && [x, y][1] == y;
    }
    forall k | 0 <= k < |c.lits|
      ensures c.lits[k] == x || c.lits[k] == y
    {
      assert c.lits[k] in ContentOf(c).lits;
    }
    AtMostTwo(c.lits, x, y);
  }

  lemma AtMostTwo(c: seq<Lit>, x: Lit, y: Lit)
    requires DistinctVars(c) && forall k :: 0 <= k < |c| ==> c[k] == x || c[k] == y
    ensures |c| <= 2
  {
    if |c| > 2 {
      VarsDiffer(c, 0, 1);
      VarsDiffer(c, 0, 2);
      VarsDiffer(c, 1, 2);
    }
  }

  lemma VarsDiffer(c: seq<Lit>, i: nat, j: nat)
    requires DistinctVars(c) && i < j < |c|
    ensures c[i].v != c[j].v
  {
  }

  lemma ForkClauses(ca: Arena, f: Problem, n: nat, crs: seq<nat>)
    requires ArenaOk(ca, n) && ArenaSound(ca, f) && ForkStore(f.store, crs)
    ensures forall cr :: Live(ca, cr) ==> |ca[cr].lits| == 2 && !ca[cr].imported
    ensures forall i :: 0 <= i < 3 ==>
              Live(ca, crs[i]) && !ca[crs[i]].imported
              && (ca[crs[i]].lits == Fork()[i] || ca[crs[i]].lits == [Fork()[i][1], Fork()[i][0]])
  {
    forall i | 0 <= i < 3
      ensures Live(ca, crs[i]) && |ca[crs[i]].lits| == 2 && !ca[crs[i]].imported
      ensures ca[crs[i]].lits == Fork()[i] || ca[crs[i]].lits == [Fork()[i][1], Fork()[i][0]]
    {
      var c := Fork()[i];
      assert c == [c[0], c[1]];
      SmallClause(ca[crs[i]], n, c[0], c[1]);
    }
  }

  /** With p true one of the three clauses is unit or false. */
  lemma ForkUnstable(t: Trail, ca: Arena, f: Problem, n: nat, crs: seq<nat>)
    requires ArenaOk(ca, n) && ArenaSound(ca, f) && ForkStore(f.store, crs) && t.IsTrue(Lit(0, false))
    ensures !AllStable(t, ca)
  {
    ForkClauses(ca, f, n, crs);
    var p := Lit(0, false);
    assert Fork()[1][1] == Lit(2, false) && Fork()[2][1] == Lit(2, true);
    forall i | 0 <= i < 3
      ensures Stable(t, ca[crs[i]].lits) ==> t.IsTrue(Fork()[i][1])
    {
      assert Fork()[i][0] == p.Neg();
      Forces(t, ca[crs[i]].lits, p.Neg(), Fork()[i][1]);
    }
  }

  lemma Forces(t: Trail, c: seq<Lit>, x: Lit, y: Lit)
    requires (c == [x, y] || c == [y, x]) && t.IsFalse(x)
    ensures Stable(t, c) ==> t.IsTrue(y)
  {
  }

  lemma ForkConflicts(t: Trail, db: Db, d: Dirt, f: Problem, q: nat, crs: seq<nat>, confl: Option<nat>)
    requires Inv(t, db, d, f, q) && ForkStore(f.store, crs) && t.IsTrue(Lit(0, false))
    requires confl.None? ==> AllStable(t, db.ca)
    requires confl.Some? ==> Live(db.ca, confl.value)
    ensures confl.Some? && |db.ca[confl.value].lits| == 2 && !db.ca[confl.value].imported
  {
    ForkUnstable(t, db.ca, f, |t.assigns|, crs);
    ForkClauses(db.ca, f, |t.assigns|, crs);
  }

  /** After p is decided, propagation ends with a conflict while the queue is not empty. */
  method QueueNotEmpty() returns (s: Solver, confl: Option<nat>)
    ensures fresh(s) && confl.Some? && Conflicting(s.tr, s.db.ca, confl.value) && s.qhead < |s.tr.lits|
  {
    ghost var crs;
    s, crs := LoadFork();
    hide Inv, ForkStore, AllStable, QueueAfter;
    DecideStep(s.tr, s.db, s.dirt, s.problem, Lit(0, false));
    s.NewDecisionLevel();
    s.UncheckedEnqueue(Lit(0, false), None);
    ghost var t := s.tr;
    assert t.Assigned(0) && t.IsTrue(Lit(0, false));
    confl := s.Propagate();
    assert s.tr.IsTrue(Lit(0, false));
    ForkConflicts(s.tr, s.db, s.dirt, s.problem, if confl.None? then s.qhead else Top(s.tr), crs, confl);
  }

  method LoadFork() returns (s: Solver, ghost crs: seq<nat>)
    ensures fresh(s) && Ok(s) && s.tr == WideTrail(3) && s.qhead == 0 && ForkStore(s.problem.store, crs)
  {
    hide Inv, Entails, ClauseOk, Quiet, ContentOf, Fork;
    s := Blank(3, Fork());
    ForkShape(s.tr);
    var c0 := Store(s, Own(Fork()[0]));
    var c1 := Store(s, Own(Fork()[1]));
    var c2 := Store(s, Own(Fork()[2]));
    crs := [c0, c1, c2];
  }

  // ---------- a removed clause may stay a reason ----------

  /** The clause (a or b) with b propagated because of it is removed; it is still the reason of b. */
  method RemovedReason() returns (s: Solver, cr: nat)
    ensures fresh(s) && cr in s.db.ca && s.db.ca[cr].deleted && IsReason(s.tr, cr)
  {
    hide Inv, Entails, IsReason;
    var a, b := Lit(0, false), Lit(1, false);
    s := Blank(2, [[a, b], [a.Neg()]]);
    GivenEntails([[a, b], [a.Neg()]], 0);
    GivenEntails([[a, b], [a.Neg()]], 1);
    cr := Store(s, Own([a, b]));
    EnqueueRoot(s.tr, s.db, s.dirt, s.problem, s.qhead, a.Neg());
    s.UncheckedEnqueue(a.Neg(), None);
    ForcedInv(s.tr, s.db, s.dirt, s.problem, s.qhead, b, cr);
    s.UncheckedEnqueue(b, Some(cr));
    assert ForcedSecond(s.tr, s.db.ca[cr], cr);
    s.RemoveClause(cr);
  }

  /** Enqueueing the literal that a clause forces. */
  lemma ForcedInv(t: Trail, db: Db, d: Dirt, f: Problem, q: nat, x: Lit, cr: nat)
    requires Inv(t, db, d, f, q) && x.v < |t.assigns| && t.IsUndef(x) && Live(db.ca, cr) && !db.ca[cr].oneWatched
    requires UnitFor(t, db.ca[cr].lits, x)
    ensures t.Sized(|t.assigns|) && Inv(t.Push(x, Some(cr)), db, d, f, q)
  {
    hide ListsOk, Attached, ReasonsOk, RootSound, Propagated;
    var n := |t.assigns|;
    PushForced(t, db.ca, n, f, x, cr);
    PushPropagated(t, db.ca, n, db.long, q, x, Some(cr));
    PushPropagated(t, db.ca, n, db.bin, q, x, Some(cr));
    PushPropagated(t, db.ca, n, db.unary, q, x, Some(cr));
  }

  // ---------- an imported clause may be missed ----------

  /** x is false at level 0 when (x or y) is received: everything counts as propagated, but y is
      never set. */
  method ImportMissed() returns (s: Solver, cr: nat, confl: Option<nat>)
    ensures fresh(s) && Ok(s) && confl.None? && s.qhead == |s.tr.lits|
    ensures Live(s.db.ca, cr) && !Stable(s.tr, s.db.ca[cr].lits)
  {
    hide Inv, Entails, AllStable, Conflicting;
    var x, y := Lit(0, false), Lit(1, false);
    s := Blank(2, [[x, y], [x.Neg()]]);
    GivenEntails([[x, y], [x.Neg()]], 0);
    GivenEntails([[x, y], [x.Neg()]], 1);
    EnqueueRoot(s.tr, s.db, s.dirt, s.problem, s.qhead, x.Neg());
    s.UncheckedEnqueue(x.Neg(), None);
    ghost var t := s.tr;
    assert t.IsFalse(x) && t.IsUndef(y);
    confl := s.Propagate();
    NothingStored(t, s.tr, s.db, s.dirt, s.problem, if confl.None? then s.qhead else Top(s.tr), confl);
    assert s.tr.IsFalse(x) && s.tr.IsUndef(y);
    cr := Store(s, ClauseRec([x, y], true, false, false, true, false));
    ghost var f := s.problem;
    confl := s.Propagate();
    StoredContent(s.tr, s.db, s.dirt, f, s.qhead, cr, x, y);
  }

  /** Without clauses nothing is propagated. */
  lemma NothingStored(t0: Trail, t: Trail, db: Db, d: Dirt, f: Problem, q: nat, confl: Option<nat>)
    requires Inv(t, db, d, f, q) && f.store == map[] && Extends(t0, t)
    requires confl.Some? ==> Conflicting(t, db.ca, confl.value)
    ensures confl.None? && forall v: nat :: t.Assigned(v) ==> t0.Assigned(v)
    ensures t.Sized(|t.assigns|) && |t.assigns| == |t0.assigns|
    ensures forall l: Lit :: l.v < |t0.assigns| ==> (t.IsFalse(l) <==> t0.IsFalse(l)) && (t.IsUndef(l) <==> t0.IsUndef(l))
  {
    hide ListsOk, Attached, RootSound, Propagated;
    forall v: nat | t.Assigned(v)
      ensures t0.Assigned(v)
    {
      assert ReasonOkAt(t, db.ca, v);
    }
    forall l: Lit | l.v < |t0.assigns|
      ensures (t.IsFalse(l) <==> t0.IsFalse(l)) && (t.IsUndef(l) <==> t0.IsUndef(l))
    {
      assert t0.Assigned(l.v) ==> SameVar(t0, t, l.v);
      assert t.Assigned(l.v) ==> t0.Assigned(l.v);
    }
  }

  lemma StoredContent(t: Trail, db: Db, d: Dirt, f: Problem, q: nat, cr: nat, x: Lit, y: Lit)
    requires Inv(t, db, d, f, q) && cr in f.store && f.store[cr] == ContentOf(ClauseRec([x, y], true, false, false, true, false))
    requires t.IsFalse(x) && t.IsUndef(y)
    ensures Live(db.ca, cr) && !Stable(t, db.ca[cr].lits)
  {
    hide ListsOk, Attached, ReasonsOk, RootSound, Propagated, Entails;
    var c := db.ca[cr];
    assert ContentOf(c) == f.store[cr] && ClauseOk(c, |t.assigns|);
    SmallClause(c.(learnt := false, imported := false, oneWatched := false), |t.assigns|, x, y);
  }
}
