/** What conflict analysis relies on: sets of variables whose trail values cannot all
    be extended to a model, and how reasons move such a set back along the trail. */
module Cuts {
  import opened Wrappers
  import opened Cnf
  import opened TrailState
  import opened ClauseDb

  /** Every literal assigned at level 0 follows from f. */
  ghost predicate RootSound(t: Trail, f: Problem)
    requires t.Sized(|t.assigns|)
  {
    forall v: nat :: t.Assigned(v) && t.level[v] == 0 ==> Entails(f.clauses, [t.TrueLit(v)])
  }

  /** m gives v the value it has on the trail. */
  ghost predicate Agrees(m: Model, t: Trail, v: nat) {
    v < |t.assigns| && Holds(m, t.TrueLit(v))
  }

  ghost predicate AgreesOn(m: Model, t: Trail, vs: set<nat>) {
    forall v :: v in vs ==> Agrees(m, t, v)
  }

  /** No model of f agrees with the trail on all of vs. */
  ghost predicate Cut(f: Problem, t: Trail, vs: set<nat>) {
    forall m: Model :: SatAll(m, f.clauses) ==> !AgreesOn(m, t, vs)
  }

  ghost function VarsOf(c: seq<Lit>): set<nat> {
    set i | 0 <= i < |c| :: c[i].v
  }

  /** The variables of c above level 0. */
  ghost function UpperVars(t: Trail, c: seq<Lit>): set<nat>
    requires t.Sized(|t.assigns|)
  {
    set i | 0 <= i < |c| && c[i].v < |t.assigns| && t.level[c[i].v] > 0 :: c[i].v
  }

  ghost predicate AllFalse(t: Trail, c: seq<Lit>) {
    forall i :: 0 <= i < |c| ==> t.IsFalse(c[i])
  }

  lemma RootAgrees(m: Model, t: Trail, f: Problem, v: nat)
    requires t.Sized(|t.assigns|) && RootSound(t, f) && SatAll(m, f.clauses)
    requires t.Assigned(v) && t.level[v] == 0
    ensures Agrees(m, t, v)
  {
    assert Entails(f.clauses, [t.TrueLit(v)]);
    assert SatClause(m, [t.TrueLit(v)]);
  }

  /** A model agrees with the trail on a variable exactly when it makes the false literal false. */
  lemma FalseMeansDisagree(m: Model, t: Trail, l: Lit)
    requires t.IsFalse(l)
    ensures Holds(m, l) <==> !Agrees(m, t, l.v)
  {
  }

  lemma TrueMeansAgree(m: Model, t: Trail, l: Lit)
    requires t.IsTrue(l)
    ensures Holds(m, l) <==> Agrees(m, t, l.v)
    ensures l == t.TrueLit(l.v)
  {
  }

  /** A falsified clause gives a cut: its variables above level 0. */
  lemma ConflictCut(t: Trail, f: Problem, c: seq<Lit>)
    requires t.Sized(|t.assigns|) && RootSound(t, f) && Entails(f.clauses, c) && AllFalse(t, c)
    ensures Cut(f, t, UpperVars(t, c))
  {
    forall m: Model | SatAll(m, f.clauses)
      ensures !AgreesOn(m, t, UpperVars(t, c))
    {
      var i :| 0 <= i < |c| && Holds(m, c[i]);
      FalseMeansDisagree(m, t, c[i]);
      if t.level[c[i].v] == 0 {
        RootAgrees(m, t, f, c[i].v);
      }
      assert c[i].v in UpperVars(t, c);
    }
  }

  /** A model that agrees with the trail on the antecedents of v agrees on v. */
  lemma ReasonForces(m: Model, t: Trail, f: Problem, c: seq<Lit>, v: nat)
    requires t.Sized(|t.assigns|) && RootSound(t, f) && SatAll(m, f.clauses) && Entails(f.clauses, c)
    requires t.Assigned(v) && ReasonFor(t, c, t.TrueLit(v))
    requires AgreesOn(m, t, UpperVars(t, c) - {v})
    ensures Agrees(m, t, v)
  {
    var i :| 0 <= i < |c| && Holds(m, c[i]);
    if c[i] != t.TrueLit(v) {
      assert FalseBefore(t, c[i], v);
      assert t.level[c[i].v] > 0 ==> c[i].v in UpperVars(t, c) - {v};
      if t.level[c[i].v] == 0 {
        RootAgrees(m, t, f, c[i].v);
      }
      FalseMeansDisagree(m, t, c[i]);
    }
  }

  /** Resolving v away: its reason's other variables take its place in the cut. */
  lemma ResolveCut(t: Trail, f: Problem, vs: set<nat>, c: seq<Lit>, v: nat)
    requires t.Sized(|t.assigns|) && RootSound(t, f) && Entails(f.clauses, c) && Cut(f, t, vs)
    requires t.Assigned(v) && ReasonFor(t, c, t.TrueLit(v))
    ensures Cut(f, t, vs - {v} + (UpperVars(t, c) - {v}))
  {
    var us := vs - {v} + (UpperVars(t, c) - {v});
    forall m: Model | SatAll(m, f.clauses)
      ensures !AgreesOn(m, t, us)
    {
      if AgreesOn(m, t, us) {
        ReasonForces(m, t, f, c, v);
        assert false;
      }
    }
  }

  /** A cut whose variables are those of a falsified clause means the clause follows. */
  lemma CutEntails(t: Trail, f: Problem, vs: set<nat>, c: seq<Lit>)
    requires Cut(f, t, vs) && AllFalse(t, c)
    requires vs <= VarsOf(c)
    ensures Entails(f.clauses, c)
  {
    forall m: Model | SatAll(m, f.clauses)
      ensures SatClause(m, c)
    {
      var v :| v in vs && !Agrees(m, t, v);
      assert v in VarsOf(c);
      var i :| 0 <= i < |c| && c[i].v == v;
      FalseMeansDisagree(m, t, c[i]);
    }
  }

  // ---------- redundancy ----------

  /** v follows from marked variables: its reason only mentions marked variables and level 0. */
  ghost predicate Justified(t: Trail, ca: Arena, marked: set<nat>, v: nat)
    requires t.Sized(|t.assigns|)
  {
    && t.Assigned(v) && t.level[v] > 0 && t.reason[v].Some? && Live(ca, t.reason[v].value)
    && UpperVars(t, ca[t.reason[v].value].lits) - {v} <= marked
  }

  /** Marked variables are kept or justified by marked variables. */
  ghost predicate Closed(t: Trail, ca: Arena, kept: set<nat>, marked: set<nat>)
    requires t.Sized(|t.assigns|)
  {
    forall v :: v in marked && v !in kept ==> Justified(t, ca, marked, v)
  }

  /** Justifications are well founded along the trail, however the marks were found. */
  lemma {:induction false} ClosedForces(m: Model, t: Trail, ca: Arena, f: Problem,
                                        kept: set<nat>, marked: set<nat>, v: nat)
    requires t.Sized(|t.assigns|) && ReasonsOk(t, ca) && RootSound(t, f) && ArenaSound(ca, f)
    requires SatAll(m, f.clauses) && AgreesOn(m, t, kept) && Closed(t, ca, kept, marked)
    requires v in marked
    ensures Agrees(m, t, v)
    decreases if v < |t.pos| then t.pos[v] else 0
  {
    if v !in kept {
      assert Justified(t, ca, marked, v) && ReasonOkAt(t, ca, v);
      var c := ca[t.reason[v].value].lits;
      forall u | u in UpperVars(t, c) - {v}
        ensures Agrees(m, t, u)
      {
        var i :| 0 <= i < |c| && c[i].v == u;
        assert FalseBefore(t, c[i], v);
        ClosedForces(m, t, ca, f, kept, marked, u);
      }
      assert Entails(f.clauses, c);
      ReasonForces(m, t, f, c, v);
    }
  }

  /** Dropping justified variables from a cut leaves a cut. */
  lemma ClosedCut(t: Trail, ca: Arena, f: Problem, vs: set<nat>, kept: set<nat>, marked: set<nat>)
    requires t.Sized(|t.assigns|) && ReasonsOk(t, ca) && RootSound(t, f) && ArenaSound(ca, f)
    requires Cut(f, t, vs) && vs <= kept + marked && Closed(t, ca, kept, marked)
    ensures Cut(f, t, kept)
  {
    forall m: Model | SatAll(m, f.clauses)
      ensures !AgreesOn(m, t, kept)
    {
      if AgreesOn(m, t, kept) {
        forall v | v in vs
          ensures Agrees(m, t, v)
        {
          if v in marked {
            ClosedForces(m, t, ca, f, kept, marked, v);
          }
        }
        assert AgreesOn(m, t, vs);
        assert false;
      }
    }
  }

  /** A model that agrees on uip and satisfies the binary clause agrees on the other literal. */
  lemma OtherAgrees(m: Model, t: Trail, uip: nat, imp: nat, c: seq<Lit>)
    requires t.Assigned(uip) && t.Assigned(imp) && Agrees(m, t, uip) && SatClause(m, c)
    requires forall l :: l in c ==> l == t.TrueLit(uip).Neg() || l == t.TrueLit(imp)
    ensures Agrees(m, t, imp)
  {
    var i :| 0 <= i < |c| && Holds(m, c[i]);
    assert c[i] in c;
  }

  lemma AgreesMore(m: Model, t: Trail, vs: set<nat>, v: nat)
    requires AgreesOn(m, t, vs - {v}) && Agrees(m, t, v)
    ensures AgreesOn(m, t, vs)
  {
    forall u | u in vs
      ensures Agrees(m, t, u)
    {
      assert u != v ==> u in vs - {v};
    }
  }

  /** A binary clause that joins the asserting literal with a true literal removes the
      negation of that literal. */
  lemma BinaryCut(t: Trail, f: Problem, vs: set<nat>, uip: nat, imp: nat, c: seq<Lit>)
    requires t.Sized(|t.assigns|) && RootSound(t, f) && Cut(f, t, vs) && Entails(f.clauses, c)
    requires uip in vs && uip != imp && t.Assigned(uip) && t.Assigned(imp)
    requires forall l :: l in c ==> l == t.TrueLit(uip).Neg() || l == t.TrueLit(imp)
    ensures Cut(f, t, vs - {imp})
  {
    forall m: Model | SatAll(m, f.clauses)
      ensures !AgreesOn(m, t, vs - {imp})
    {
      if AgreesOn(m, t, vs - {imp}) {
        OtherAgrees(m, t, uip, imp, c);
        AgreesMore(m, t, vs, imp);
      }
    }
  }
}
