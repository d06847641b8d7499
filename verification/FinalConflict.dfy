/** Solving under assumptions: what the first decision levels hold, and the clause that
    blames a subset of the assumptions. */
module FinalConflict {
  import opened Wrappers
  import opened Cnf
  import opened TrailState
  import opened ClauseDb
  import opened Cuts
  import opened Invariants
  import opened PropagationQueue
  import opened Analysis
  import opened Redundancy

  // ---------- assumptions on the trail ----------

  /** The first decision levels belong to the assumptions, in order. A level whose assumption was
      true already is empty. */
  ghost predicate Assumed(t: Trail, assumptions: seq<Lit>) {
    && t.Sized(|t.assigns|)
    && (forall k :: 0 <= k < |t.lim| && k < |assumptions| ==>
          t.IsTrue(assumptions[k]) && t.level[assumptions[k].v] <= k + 1)
    && (forall v: nat :: AssumptionLevel(t, v, |assumptions|) && t.reason[v].None? ==> t.TrueLit(v) in assumptions)
  }

  ghost predicate AssumptionLevel(t: Trail, v: nat, a: nat)
    requires t.Sized(|t.assigns|)
  {
    t.Assigned(v) && 0 < t.level[v] <= a
  }

  lemma AssumedExtends(t: Trail, u: Trail, n: nat, assumptions: seq<Lit>)
    requires t.Wf(n) && u.Wf(n) && Extends(t, u) && Assumed(t, assumptions)
    ensures Assumed(u, assumptions)
  {
    forall k | 0 <= k < |u.lim| && k < |assumptions|
      ensures u.IsTrue(assumptions[k]) && u.level[assumptions[k].v] <= k + 1
    {
      assert t.IsTrue(assumptions[k]) && SameVar(t, u, assumptions[k].v);
    }
    forall v: nat | AssumptionLevel(u, v, |assumptions|) && u.reason[v].None?
      ensures u.TrueLit(v) in assumptions
    {
      assert t.Assigned(v) && SameVar(t, u, v) && AssumptionLevel(t, v, |assumptions|);
    }
  }

  lemma AssumedCancel(t: Trail, n: nat, assumptions: seq<Lit>, k: nat)
    requires t.Wf(n) && k < |t.lim| && Assumed(t, assumptions)
    ensures Assumed(t.Cancel(k), assumptions)
  {
    CancelWf(t, n, k);
    var u := t.Cancel(k);
    forall v: nat | AssumptionLevel(u, v, |assumptions|) && u.reason[v].None?
      ensures u.TrueLit(v) in assumptions
    {
      assert AssumptionLevel(t, v, |assumptions|);
    }
    forall i | 0 <= i < |u.lim| && i < |assumptions|
      ensures u.IsTrue(assumptions[i]) && u.level[assumptions[i].v] <= i + 1
    {
      assert t.IsTrue(assumptions[i]) && t.Assigned(assumptions[i].v);
    }
  }

  /** Enqueueing a literal with a reason, at level 0, above the assumptions, or the next assumption. */
  lemma AssumedPush(t: Trail, n: nat, assumptions: seq<Lit>, p: Lit, from: Option<nat>)
    requires t.Wf(n) && p.v < n && t.IsUndef(p) && Assumed(t, assumptions)
    requires from.Some? || t.lim == [] || |t.lim| > |assumptions|
    ensures Assumed(t.Push(p, from), assumptions)
  {
    var u := t.Push(p, from);
    forall v: nat | AssumptionLevel(u, v, |assumptions|) && u.reason[v].None?
      ensures u.TrueLit(v) in assumptions
    {
      assert v != p.v && AssumptionLevel(t, v, |assumptions|);
    }
  }

  /** At level 0 nothing has been assumed yet. */
  lemma AssumedAtRoot(t: Trail, n: nat, assumptions: seq<Lit>)
    requires t.Wf(n) && t.lim == []
    ensures Assumed(t, assumptions)
  {
    forall v: nat | t.Assigned(v)
      ensures t.level[v] == 0
    {
      assert t.Levelled(v);
    }
  }

  lemma AssumedReasons(t: Trail, u: Trail, assumptions: seq<Lit>)
    requires Assumed(t, assumptions) && u == t.(reason := u.reason) && |u.reason| == |t.reason|
    requires t.Wf(|t.assigns|) && (t.lim != [] ==> u == t)
    ensures Assumed(u, assumptions)
  {
    if t.lim == [] {
      forall v: nat | t.Assigned(v)
        ensures t.level[v] == 0
      {
        assert t.Levelled(v);
      }
    }
  }

  /** Opening the level of the next assumption: empty when it is true, else with the assumption
      as decision. */
  lemma AssumedNext(t: Trail, n: nat, assumptions: seq<Lit>)
    requires t.Wf(n) && |t.lim| < |assumptions| && Assumed(t, assumptions) && assumptions[|t.lim|].v < n
    ensures t.IsTrue(assumptions[|t.lim|]) ==> Assumed(t.NewLevel(), assumptions)
    ensures t.IsUndef(assumptions[|t.lim|]) ==> Assumed(t.NewLevel().Push(assumptions[|t.lim|], None), assumptions)
  {
    var p := assumptions[|t.lim|];
    if t.IsTrue(p) {
      assert t.Levelled(p.v);
      var u := t.NewLevel();
      forall v: nat | AssumptionLevel(u, v, |assumptions|) && u.reason[v].None?
        ensures u.TrueLit(v) in assumptions
      {
        assert AssumptionLevel(t, v, |assumptions|);
      }
    }
    if t.IsUndef(p) {
      var u := t.NewLevel().Push(p, None);
      forall v: nat | AssumptionLevel(u, v, |assumptions|) && u.reason[v].None?
        ensures u.TrueLit(v) in assumptions
      {
        if v == p.v {
          assert u.TrueLit(v) == p;
        } else {
          assert AssumptionLevel(t, v, |assumptions|);
        }
      }
    }
  }

  /** A decision above the assumptions. */
  lemma AssumedDecide(t: Trail, n: nat, assumptions: seq<Lit>, p: Lit)
    requires t.Wf(n) && p.v < n && t.IsUndef(p) && |t.lim| >= |assumptions| && Assumed(t, assumptions)
    ensures Assumed(t.NewLevel().Push(p, None), assumptions)
  {
    var u := t.NewLevel().Push(p, None);
    forall v: nat | AssumptionLevel(u, v, |assumptions|) && u.reason[v].None?
      ensures u.TrueLit(v) in assumptions
    {
      assert AssumptionLevel(t, v, |assumptions|);
    }
  }

  // ---------- the final conflict ----------

  /** The trail is read down to index: the variables in done are decisions, which are blamed, or
      are justified by marked variables; those in pending are marked and still to come. */
  ghost predicate Blaming(t: Trail, ca: Arena, seen: seq<bool>, p: Lit, blamed: seq<Lit>, done: set<nat>, index: int) {
    && t.Wf(|t.assigns|) && |seen| == |t.assigns| && index <= |t.lits|
    && (forall v :: v in Marked(seen) ==> t.Assigned(v) && (t.level[v] > 0 || v == p.v) && t.pos[v] < index)
    && (forall v :: v in done && v !in VarsOf(blamed) ==> Justified(t, ca, done + Marked(seen), v))
    && (forall l :: l in blamed ==> t.IsFalse(l) && t.level[l.v] > 0 && t.reason[l.v].None?)
    && (p.v in done || p.v in Marked(seen))
  }

  lemma BlameStart(t: Trail, ca: Arena, seen: seq<bool>, p: Lit)
    requires t.Wf(|t.assigns|) && |seen| == |t.assigns| && Marked(seen) == {} && t.Assigned(p.v)
    ensures Blaming(t, ca, seen[p.v := true], p, [], {}, |t.lits|)
  {
    assert Marked(seen[p.v := true]) == {p.v};
  }

  lemma BlameSkip(t: Trail, ca: Arena, seen: seq<bool>, p: Lit, blamed: seq<Lit>, done: set<nat>, i: nat)
    requires Blaming(t, ca, seen, p, blamed, done, i + 1)
    ensures t.lits[i].v < |seen| == |t.assigns|
    ensures !seen[t.lits[i].v] ==> Blaming(t, ca, seen, p, blamed, done, i)
  {
    assert t.IsTrue(t.lits[i]);
    if !seen[t.lits[i].v] {
      forall v | v in Marked(seen)
        ensures t.pos[v] < i
      {
        assert t.lits[t.pos[v]].v == v;
      }
    }
  }

  /** A marked decision is blamed. */
  lemma BlameDecision(t: Trail, ca: Arena, seen: seq<bool>, p: Lit, blamed: seq<Lit>, done: set<nat>, i: nat)
    requires Blaming(t, ca, seen, p, blamed, done, i + 1) && t.lim != [] && t.lim[0] <= i
    requires t.lits[i].v < |seen| && seen[t.lits[i].v] && t.reason[t.lits[i].v].None?
    ensures Blaming(t, ca, seen[t.lits[i].v := false], p, blamed + [t.lits[i].Neg()], done + {t.lits[i].v}, i)
  {
    var x := t.lits[i].v;
    var seen' := seen[x := false];
    assert t.IsTrue(t.lits[i]) && t.Levelled(x);
    assert Marked(seen') == Marked(seen) - {x};
    forall v | v in Marked(seen')
      ensures t.pos[v] < i
    {
      assert t.lits[t.pos[v]].v == v;
    }
    VarsOfAppend(blamed, t.lits[i].Neg());
    forall v | v in done + {x} && v !in VarsOf(blamed + [t.lits[i].Neg()])
      ensures Justified(t, ca, done + {x} + Marked(seen'), v)
    {
      assert done + {x} + Marked(seen') == done + Marked(seen);
    }
  }

  /** While the reason c of x is read: like Blaming, but x stays marked. */
  ghost predicate BlamingReason(t: Trail, ca: Arena, seen: seq<bool>, p: Lit, blamed: seq<Lit>, done: set<nat>, i: nat, cr: nat) {
    && t.Wf(|t.assigns|) && |seen| == |t.assigns| && i < |t.lits| && t.lits[i].v < |seen|
    && seen[t.lits[i].v] && t.reason[t.lits[i].v] == Some(cr) && Live(ca, cr) && ReasonFor(t, ca[cr].lits, t.lits[i])
    && t.pos[t.lits[i].v] == i && t.Assigned(t.lits[i].v) && t.level[t.lits[i].v] > 0
    && Blaming(t, ca, seen, p, blamed, done, i + 1)
  }

  lemma BlameReasonStart(t: Trail, ca: Arena, seen: seq<bool>, p: Lit, blamed: seq<Lit>, done: set<nat>, i: nat)
    requires Blaming(t, ca, seen, p, blamed, done, i + 1) && ReasonsOk(t, ca) && t.lim != [] && t.lim[0] <= i
    requires t.lits[i].v < |seen| && seen[t.lits[i].v] && t.reason[t.lits[i].v].Some?
    ensures BlamingReason(t, ca, seen, p, blamed, done, i, t.reason[t.lits[i].v].value)
  {
    var x := t.lits[i].v;
    assert t.IsTrue(t.lits[i]) && t.Levelled(x) && t.TrueLit(x) == t.lits[i];
    assert ReasonOkAt(t, ca, x);
  }

  /** The antecedents at the positions from start on and before j are marked. */
  ghost predicate MarkedFrom(t: Trail, seen: seq<bool>, c: seq<Lit>, start: nat, j: nat) {
    forall k :: start <= k < j && k < |c| ==> c[k].v < |seen| && c[k].v < |t.level| && (t.level[c[k].v] > 0 ==> seen[c[k].v])
  }

  lemma BlameNothingRead(t: Trail, seen: seq<bool>, c: seq<Lit>, start: nat)
    ensures MarkedFrom(t, seen, c, start, start)
  {
  }

  /** Reading the antecedent at j: it is marked unless it is on level 0. */
  lemma BlameRead(t: Trail, ca: Arena, seen: seq<bool>, p: Lit, blamed: seq<Lit>, done: set<nat>, i: nat, cr: nat, start: nat, j: nat)
    requires BlamingReason(t, ca, seen, p, blamed, done, i, cr) && start <= j < |ca[cr].lits|
    requires MarkedFrom(t, seen, ca[cr].lits, start, j)
    ensures ca[cr].lits[j].v < |seen| == |t.level| == |t.assigns|
    ensures var v := ca[cr].lits[j].v; var seen' := if t.level[v] > 0 then seen[v := true] else seen;
            BlamingReason(t, ca, seen', p, blamed, done, i, cr) && MarkedFrom(t, seen', ca[cr].lits, start, j + 1)
  {
    hide Blaming;
    var c := ca[cr].lits;
    BlamingSize(t, ca, seen, p, blamed, done, i + 1);
    assert c[j] != t.lits[i] ==> FalseBefore(t, c[j], t.lits[i].v);
    if t.level[c[j].v] > 0 {
      BlameMark(t, ca, seen, p, blamed, done, i, cr, j);
    }
  }

  lemma BlamingSize(t: Trail, ca: Arena, seen: seq<bool>, p: Lit, blamed: seq<Lit>, done: set<nat>, index: int)
    requires Blaming(t, ca, seen, p, blamed, done, index)
    ensures |seen| == |t.assigns| && t.Sized(|t.assigns|)
  {
  }

  lemma BlameMark(t: Trail, ca: Arena, seen: seq<bool>, p: Lit, blamed: seq<Lit>, done: set<nat>, i: nat, cr: nat, j: nat)
    requires BlamingReason(t, ca, seen, p, blamed, done, i, cr) && j < |ca[cr].lits| && ca[cr].lits[j].v < |t.assigns|
    requires t.level[ca[cr].lits[j].v] > 0
    ensures BlamingReason(t, ca, seen[ca[cr].lits[j].v := true], p, blamed, done, i, cr)
  {
    var c := ca[cr].lits;
    var v := c[j].v;
    var seen' := seen[v := true];
    assert Marked(seen') == Marked(seen) + {v};
    assert c[j] != t.lits[i] ==> FalseBefore(t, c[j], t.lits[i].v);
    forall u | u in done && u !in VarsOf(blamed)
      ensures Justified(t, ca, done + Marked(seen'), u)
    {
      assert Justified(t, ca, done + Marked(seen), u);
    }
  }

  /** All antecedents are marked: x is justified. */
  lemma BlameReasonEnd(t: Trail, ca: Arena, seen: seq<bool>, p: Lit, blamed: seq<Lit>, done: set<nat>, i: nat, cr: nat, start: nat)
    requires BlamingReason(t, ca, seen, p, blamed, done, i, cr)
    requires start <= 1 && (start == 1 ==> |ca[cr].lits| != 2) && MarkedFrom(t, seen, ca[cr].lits, start, |ca[cr].lits|)
    ensures t.lits[i].v < |seen| && Blaming(t, ca, seen[t.lits[i].v := false], p, blamed, done + {t.lits[i].v}, i)
  {
    var c := ca[cr].lits;
    var x := t.lits[i].v;
    var seen' := seen[x := false];
    assert Marked(seen') == Marked(seen) - {x};
    assert done + {x} + Marked(seen') == done + Marked(seen);
    forall v | v in Marked(seen')
      ensures t.pos[v] < i
    {
      assert t.lits[t.pos[v]].v == v;
    }
    forall u | u in UpperVars(t, c) - {x}
      ensures u in Marked(seen)
    {
      var k :| 0 <= k < |c| && c[k].v == u && t.level[u] > 0;
      assert k >= start;
    }
    assert Justified(t, ca, done + Marked(seen), x);
  }

  lemma OnlyRootMarked(t: Trail, ca: Arena, seen: seq<bool>, p: Lit, blamed: seq<Lit>, done: set<nat>)
    requires t.lim != [] && Blaming(t, ca, seen, p, blamed, done, t.lim[0])
    ensures forall v :: v in Marked(seen) ==> v == p.v && t.Assigned(v) && t.level[v] == 0
  {
    forall v | v in Marked(seen)
      ensures v == p.v && t.level[v] == 0
    {
      assert t.Levelled(v);
    }
  }

  /** When the level 0 part is reached, the blamed decisions together force p. */
  lemma BlameEntails(t: Trail, ca: Arena, f: Problem, seen: seq<bool>, p: Lit, blamed: seq<Lit>, done: set<nat>)
    requires t.lim != [] && Blaming(t, ca, seen, p, blamed, done, t.lim[0]) && t.IsTrue(p)
    requires ReasonsOk(t, ca) && RootSound(t, f) && ArenaSound(ca, f)
    ensures Entails(f.clauses, [p] + blamed)
    ensures Marked(seen) <= {p.v}
  {
    OnlyRootMarked(t, ca, seen, p, blamed, done);
    hide Justified, RootSound, ReasonsOk, ArenaSound;
    forall m: Model | SatAll(m, f.clauses)
      ensures SatClause(m, [p] + blamed)
    {
      if forall l :: l in blamed ==> !Holds(m, l) {
        AllBlamedAgree(m, t, blamed);
        if p.v in Marked(seen) {
          RootAgrees(m, t, f, p.v);
        } else {
          forall v | v in done && v !in VarsOf(blamed)
            ensures Justified(t, ca, done, v)
          {
            assert done + Marked(seen) == done;
          }
          ClosedForces(m, t, ca, f, VarsOf(blamed), done, p.v);
        }
        TrueMeansAgree(m, t, p);
        assert ([p] + blamed)[0] == p;
      } else {
        var l :| l in blamed && Holds(m, l);
        SatClauseOf(m, [p] + blamed, l);
      }
    }
  }

  lemma AllBlamedAgree(m: Model, t: Trail, blamed: seq<Lit>)
    requires forall l :: l in blamed ==> t.IsFalse(l) && !Holds(m, l)
    ensures AgreesOn(m, t, VarsOf(blamed))
  {
    forall v | v in VarsOf(blamed)
      ensures Agrees(m, t, v)
    {
      var i :| 0 <= i < |blamed| && blamed[i].v == v;
      assert blamed[i] in blamed;
      FalseMeansDisagree(m, t, blamed[i]);
    }
  }

  /** At level 0 the assumption is refuted outright. */
  lemma RootBlame(t: Trail, f: Problem, p: Lit)
    requires t.Wf(|t.assigns|) && RootSound(t, f) && t.IsTrue(p) && t.lim == []
    ensures Entails(f.clauses, [p])
  {
    assert t.Levelled(p.v);
    assert t.TrueLit(p.v) == p;
  }

  /** The blamed literals are negated assumptions. */
  lemma BlamedAssumptions(t: Trail, ca: Arena, seen: seq<bool>, p: Lit, blamed: seq<Lit>, done: set<nat>, index: int, assumptions: seq<Lit>)
    requires Blaming(t, ca, seen, p, blamed, done, index) && Assumed(t, assumptions) && |t.lim| <= |assumptions|
    ensures forall l :: l in blamed ==> l.Neg() in assumptions
  {
    forall l | l in blamed
      ensures l.Neg() in assumptions
    {
      assert t.Levelled(l.v) && AssumptionLevel(t, l.v, |assumptions|);
      assert t.TrueLit(l.v) == l.Neg();
    }
  }

  // ---------- no blame without need ----------

  /** v is a decision above level 0 from which p was propagated, however indirectly. */
  ghost predicate Blames(t: Trail, f: Problem, p: nat, v: nat) {
    v < |t.reason| && v < |t.level| && t.reason[v].None? && t.level[v] > 0 && Reach(t, f, {}, p, v)
  }

  /** The trail is read down to some position: everything met led to p, and whatever is done is
      blamed or has passed the blame on to all its antecedents. */
  ghost predicate Traced(t: Trail, f: Problem, p: nat, marked: set<nat>, blamed: set<nat>, done: set<nat>) {
    && (forall v :: v in done + marked ==> Reach(t, f, {}, p, v))
    && (forall v :: v in done && v !in blamed ==> v < |t.reason| && t.reason[v].Some? && AllMarked(t, f, done + marked, v))
    && blamed <= done
  }

  lemma TraceStart(t: Trail, f: Problem, seen: seq<bool>, p: nat)
    requires Marked(seen) == {} && p < |seen|
    ensures Traced(t, f, p, Marked(seen[p := true]), VarsOf([]), {})
  {
    ReachSelf(t, f, {}, p);
    assert Marked(seen[p := true]) == {p} && VarsOf([]) == {};
  }

  lemma TraceDecision(t: Trail, f: Problem, p: nat, seen: seq<bool>, blamed: seq<Lit>, done: set<nat>, l: Lit)
    requires l.v < |seen| && seen[l.v] && Traced(t, f, p, Marked(seen), VarsOf(blamed), done)
    ensures Traced(t, f, p, Marked(seen[l.v := false]), VarsOf(blamed + [l]), done + {l.v})
  {
    hide Reach;
    VarsOfAppend(blamed, l);
    hide VarsOf;
    var seen' := seen[l.v := false];
    assert done + {l.v} + Marked(seen') == done + Marked(seen);
  }

  lemma ReadingBlame(t: Trail, ca: Arena, seen: seq<bool>, p: Lit, blamed: seq<Lit>, done: set<nat>, i: nat, cr: nat)
    requires BlamingReason(t, ca, seen, p, blamed, done, i, cr)
    ensures t.Sized(|t.assigns|) && i < |t.lits| && t.lits[i].v < |seen| == |t.assigns| && seen[t.lits[i].v]
    ensures t.reason[t.lits[i].v] == Some(cr)
    ensures cr in ca && |ca[cr].lits| > 0 && (|ca[cr].lits| != 2 ==> ca[cr].lits[0].v == t.lits[i].v)
  {
  }

  lemma StoredSays(ca: Arena, f: Problem, cr: nat)
    requires Stored(ca, f.store) && cr in ca
    ensures SaysSame(f, cr, ca[cr].lits)
  {
    assert ContentOf(ca[cr]) == f.store[cr];
  }

  lemma NoVars(c: seq<Lit>)
    requires c == []
    ensures VarsOf(c) == {}
  {
  }

  /** The antecedent at j is marked. */
  lemma TraceRead(t: Trail, f: Problem, p: nat, seen: seq<bool>, blamed: set<nat>, done: set<nat>, x: nat, cr: nat, c: seq<Lit>, j: nat)
    requires x < |seen| && seen[x] && Traced(t, f, p, Marked(seen), blamed, done)
    requires x < |t.reason| && t.reason[x] == Some(cr) && SaysSame(f, cr, c) && j < |c|
    requires c[j].v < |seen| && c[j].v < |t.level| && t.level[c[j].v] > 0
    ensures Traced(t, f, p, Marked(seen[c[j].v := true]), blamed, done)
  {
    var u := c[j].v;
    if u != x {
      IsAntecedent(t, f, x, cr, c, j);
      assert x in done + Marked(seen);
      ReachNext(t, f, {}, p, x, u);
    }
    TraceMark(t, f, p, seen, blamed, done, u);
  }

  lemma TraceMark(t: Trail, f: Problem, p: nat, seen: seq<bool>, blamed: set<nat>, done: set<nat>, u: nat)
    requires Traced(t, f, p, Marked(seen), blamed, done) && u < |seen| && (u in Marked(seen) || Reach(t, f, {}, p, u))
    ensures Traced(t, f, p, Marked(seen[u := true]), blamed, done)
  {
    hide Reach, Antecedent;
    assert Marked(seen[u := true]) == Marked(seen) + {u};
    forall v | v in done && v !in blamed
      ensures AllMarked(t, f, done + Marked(seen[u := true]), v)
    {
      assert AllMarked(t, f, done + Marked(seen), v);
    }
  }

  /** All antecedents of x are marked. */
  lemma TraceEnd(t: Trail, f: Problem, p: nat, seen: seq<bool>, blamed: set<nat>, done: set<nat>, x: nat, cr: nat, c: seq<Lit>, start: nat)
    requires x < |seen| && seen[x] && Traced(t, f, p, Marked(seen), blamed, done)
    requires x < |t.reason| && t.reason[x] == Some(cr) && SaysSame(f, cr, c)
    requires start <= 1 && (start == 1 ==> |c| > 0 && c[0].v == x) && MarkedFrom(t, seen, c, start, |c|)
    ensures Traced(t, f, p, Marked(seen[x := false]), blamed, done + {x})
  {
    ReasonRead(t, f, x, cr, c, Marked(seen));
    hide Reach, Antecedent, SaysSame, MarkedFrom;
    assert done + {x} + Marked(seen[x := false]) == done + Marked(seen);
    forall v | v in done + {x} && v !in blamed
      ensures AllMarked(t, f, done + Marked(seen), v)
    {
      if v in done {
        assert AllMarked(t, f, done + Marked(seen), v);
      } else {
        assert AllMarked(t, f, Marked(seen), v);
      }
    }
  }

  lemma AntecedentBelow(t: Trail, ca: Arena, f: Problem, v: nat, u: nat)
    requires t.Wf(|t.assigns|) && ReasonsOk(t, ca) && Stored(ca, f.store) && t.Assigned(v) && Antecedent(t, f, v, u)
    ensures t.level[u] <= t.level[v]
  {
    assert ReasonOkAt(t, ca, v);
    var cr := t.reason[v].value;
    var l :| l in f.store[cr].lits && l.v == u;
    assert ContentOf(ca[cr]) == f.store[cr];
    var k :| 0 <= k < |ca[cr].lits| && ca[cr].lits[k] == l;
    assert FalseBefore(t, ca[cr].lits[k], v);
    assert t.Levelled(u) && t.Levelled(v);
  }

  /** What was propagated at level 0 has no antecedents above it. */
  lemma RootHasNone(t: Trail, ca: Arena, f: Problem, v: nat, u: nat)
    requires t.Wf(|t.assigns|) && ReasonsOk(t, ca) && Stored(ca, f.store) && t.Assigned(v) && t.level[v] == 0
    ensures !Antecedent(t, f, v, u)
  {
    if Antecedent(t, f, v, u) {
      AntecedentBelow(t, ca, f, v, u);
    }
  }

  /** Everything from which p was propagated is met. */
  lemma {:induction false} TracedAll(t: Trail, f: Problem, p: nat, marked: set<nat>, blamed: set<nat>, done: set<nat>, vs: seq<nat>)
    requires Traced(t, f, p, marked, blamed, done) && p in done + marked && Chain(t, f, {}, vs) && vs[0] == p
    requires forall v, u :: v in marked ==> !Antecedent(t, f, v, u)
    requires forall v :: v in blamed ==> v < |t.reason| && t.reason[v].None?
    ensures vs[|vs| - 1] in done + marked
  {
    var n := |vs| - 1;
    if n > 0 {
      TracedAll(t, f, p, marked, blamed, done, vs[..n]);
      assert vs[..n][n - 1] == vs[n - 1] && Antecedent(t, f, vs[n - 1], vs[n]);
    }
  }

  /** In the end exactly the decisions that led to p are blamed. */
  lemma BlamedExactly(t: Trail, ca: Arena, f: Problem, seen: seq<bool>, p: Lit, blamed: seq<Lit>, done: set<nat>)
    requires t.lim != [] && Blaming(t, ca, seen, p, blamed, done, t.lim[0]) && ReasonsOk(t, ca) && Stored(ca, f.store)
    requires Traced(t, f, p.v, Marked(seen), VarsOf(blamed), done)
    ensures forall v :: v in VarsOf(blamed) <==> Blames(t, f, p.v, v)
  {
    OnlyRootMarked(t, ca, seen, p, blamed, done);
    forall v, u | v in Marked(seen)
      ensures !Antecedent(t, f, v, u)
    {
      RootHasNone(t, ca, f, v, u);
    }
    forall v
      ensures v in VarsOf(blamed) <==> Blames(t, f, p.v, v)
    {
      if v in VarsOf(blamed) {
        BlamedDecision(t, ca, seen, p, blamed, done, v);
        assert v in done + Marked(seen);
      }
      if Blames(t, f, p.v, v) {
        BlamesMet(t, ca, f, seen, p, blamed, done, v);
      }
    }
  }

  lemma BlamedDecision(t: Trail, ca: Arena, seen: seq<bool>, p: Lit, blamed: seq<Lit>, done: set<nat>, v: nat)
    requires t.lim != [] && Blaming(t, ca, seen, p, blamed, done, t.lim[0]) && v in VarsOf(blamed)
    ensures v < |t.reason| && v < |t.level| && t.reason[v].None? && t.level[v] > 0
  {
    var i :| 0 <= i < |blamed| && blamed[i].v == v;
    assert blamed[i] in blamed;
  }

  lemma BlamesMet(t: Trail, ca: Arena, f: Problem, seen: seq<bool>, p: Lit, blamed: seq<Lit>, done: set<nat>, v: nat)
    requires t.lim != [] && Blaming(t, ca, seen, p, blamed, done, t.lim[0]) && Blames(t, f, p.v, v)
    requires Traced(t, f, p.v, Marked(seen), VarsOf(blamed), done)
    requires forall v, u :: v in Marked(seen) ==> !Antecedent(t, f, v, u)
    ensures v in VarsOf(blamed)
  {
    OnlyRootMarked(t, ca, seen, p, blamed, done);
    forall u | u in VarsOf(blamed)
      ensures u < |t.reason| && t.reason[u].None?
    {
      BlamedDecision(t, ca, seen, p, blamed, done, u);
    }
    hide Antecedent, VarsOf;
    var vs :| Chain(t, f, {}, vs) && vs[0] == p.v && vs[|vs| - 1] == v;
    TracedAll(t, f, p.v, Marked(seen), VarsOf(blamed), done, vs);
  }

  /** With level 0 only, nobody is to blame. */
  lemma NobodyBlamed(t: Trail, ca: Arena, f: Problem, p: Lit)
    requires t.Wf(|t.assigns|) && ReasonsOk(t, ca) && Stored(ca, f.store) && t.IsTrue(p) && t.lim == []
    ensures forall v :: !Blames(t, f, p.v, v)
  {
    assert t.Levelled(p.v);
    forall v
      ensures !Blames(t, f, p.v, v)
    {
      if Blames(t, f, p.v, v) {
        var vs :| Chain(t, f, {}, vs) && vs[0] == p.v && vs[|vs| - 1] == v;
        if |vs| > 1 {
          RootHasNone(t, ca, f, p.v, vs[1]);
        }
      }
    }
  }
}
