/** The preprocessor: backward subsumption, clause strengthening, asymmetric branching and
    bounded variable elimination with its reconstruction stack. */
module Simplification {
  import opened Wrappers
  import opened Cnf
  import opened TrailState
  import opened Cuts
  import Propagation
  import opened SearchSteps
  import opened Growth
  import opened PropagationQueue
  import opened ProblemClauses
  import opened Subsumption
  import opened Resolution
  import opened Lifting
  import opened Occurrences
  import opened Elimination
  import opened UnitClosure
  import opened SimpSteps
  import opened SimpRuns
  import opened SimpScan

  class SimpSolver {
    /** Clauses, occurrence lists and level 0 trail. */
    var p: Pre
    var subsumptionQueue: seq<nat>
    /** The trail literals before this index have been used for backward subsumption. */
    var bwdsubAssigns: nat
    /** The literal of the dummy unit clause. */
    var tmpUnit: Lit
    var subsumptionLim: int
    var useRcheck: bool
    /** Some elimination under the implication check lost what the clauses of its variable said. */
    ghost var lossy: bool
    var useAsymm: bool
    var useElim: bool
    /** How much the number of clauses may grow, and how long a resolvent may be. */
    var grow: int
    var clauseLim: int
    var frozen: seq<bool>
    var eliminated: seq<bool>
    /** The reconstruction stack, and the records it packs. */
    var elimclauses: seq<nat>
    ghost var records: seq<Record>
    /** The clauses given so far. */
    ghost var original: set<seq<Lit>>
    var ok: bool

    // ---------- units ----------

    /** enqueue and propagate at level 0. */
    method EnqueueUnit(x: Lit) returns (good: bool)
      requires PreOk(p) && x.v < |p.t.assigns|
      modifies this`p
      ensures PreOk(p) && Continues(old(p).t, p.t) && p == old(p).(t := p.t)
      ensures AddsUnit(old(p), p, x, good) && (good ==> p.t.IsTrue(x))
      ensures good ==> StableList(p.ca, p.clauses, p.t, |p.clauses|)
    {
      hide PreOk, Continues, Sound, FineList, StableList;
      ghost var p0 := p;
      PreFacts(p);
      if Value(p.t.assigns, x) == LFalse {
        FalseUnit(p, x);
        StartSound(p.ca, p.t);
        return false;
      }
      ghost var t1 := p.t;
      if Value(p.t.assigns, x) == LUndef {
        EnqueuedOk(p, x);
        PushContinuesAll(p, x);
        p := p.(t := p.t.Push(x, None));
        PreFacts(p);
      } else {
        StartSound(p.ca, p.t);
      }
      UnitAdded(p0, p, x);
      ghost var p1 := p;
      var conflict, t := UnitPropagate(p.ca, p.clauses, p.t);
      Propagated(p0, p1, t, conflict, x);
      StaysTrue(p1.t, t, x);
      p := p.(t := t);
      good := !conflict;
    }

    // ---------- removing and strengthening ----------

    /** Marks the clause deleted; the lists of its variables become dirty. */
    method RemoveClause(cr: nat)
      requires PreOk(p) && Alive(p.ca, cr)
      modifies this`p
      ensures p == Deleting(old(p), cr) && PreOk(p) && Reduces(old(p), p) && Size(p) < Size(old(p))
    {
      DeletingOk(p, cr);
      DeletingReduces(p, cr);
      hide PreOk, Size;
      var c := p.ca[cr].lits;
      var dirty := p.dirty;
      PreFacts(p);
      PreClause(p, cr);
      for i := 0 to |c|
        invariant |dirty| == |p.dirty| && dirty == Smudge(p.dirty, c[..i])
      {
        assert c[..i + 1][..i] == c[..i];
        dirty := dirty[c[i].v := true];
      }
      assert c[..|c|] == c;
      p := p.(ca := p.ca[cr := p.ca[cr].(deleted := true)], dirty := dirty);
    }

    /** Takes the literal l out of the clause. A clause of two literals becomes a unit, which is
        enqueued and propagated. */
    method StrengthenClause(cr: nat, l: Lit) returns (good: bool)
      requires PreOk(p) && Alive(p.ca, cr) && l in p.ca[cr].lits
      modifies this`p, this`subsumptionQueue
      ensures PreOk(p) && Reduces(old(p), p) && Size(p) < Size(old(p)) && subsumptionQueue == old(subsumptionQueue) + [cr]
      ensures Replaces(old(p), cr, RemoveFirst(old(p).ca[cr].lits, l), p, good)
      ensures Strengthened(old(p), p, cr, l)
    {
      hide PreOk, Size, Replaces, Continues, AddsUnit;
      ghost var p0 := p;
      PreClause(p, cr);
      subsumptionQueue := subsumptionQueue + [cr];
      var d := RemoveFirst(p.ca[cr].lits, l);
      if |p.ca[cr].lits| == 2 {
        RemoveClause(cr);
        ghost var p1 := p;
        BinaryShrunk(p0, cr, l, p1);
        p := p.(ca := p.ca[cr := Cls(d, true, Abstraction(d))]);
        ghost var p2 := p;
        good := EnqueueUnit(d[0]);
        BinaryReplaced(p0, cr, l, p2, p, good);
      } else {
        ShortenedOk(p, cr, l);
        ShortenedReduces(p, cr, l);
        p := p.(ca := p.ca[cr := Cls(d, false, Abstraction(d))],
                occurs := p.occurs[l.v := RemoveFirst(p.occurs[l.v], cr)]);
        good := true;
      }
    }

    /** The live clauses with v: cleans the list first if it is dirty. */
    method Lookup(v: nat)
      requires PreOk(p) && v < |p.occurs|
      modifies this`p
      ensures PreOk(p) && p == old(p).(occurs := p.occurs, dirty := p.dirty) && |p.occurs| == |old(p).occurs|
      ensures forall i :: 0 <= i < |p.occurs[v]| ==> Alive(p.ca, p.occurs[v][i])
      ensures forall u :: 0 <= u < |p.occurs| && u != v ==> p.occurs[u] == old(p).occurs[u]
      ensures v < |p.dirty| && !p.dirty[v]
    {
      hide PreOk;
      PreList(p, v);
      if p.dirty[v] {
        CleanedOk(p, v);
        var kept := CleanOcc(p.ca, p.occurs[v]);
        p := p.(occurs := p.occurs[v := kept], dirty := p.dirty[v := false]);
      }
      PreList(p, v);
    }

    // ---------- backward subsumption ----------

    /** Compares the clause c, stored at cr or the dummy unit, with the j-th candidate in the list of
        best: a subsumed candidate is removed, one that c almost subsumes is strengthened. */
    method CheckOne(c: seq<Lit>, abs: bv32, cr: nat, best: nat, j: nat) returns (good: bool, next: nat, ghost r: Outcome)
      requires PreOk(p) && Premise(p, cr, c) && abs == Abstraction(c) && best < |p.occurs| && j < |p.occurs[best]|
      modifies this`p, this`subsumptionQueue
      ensures PreOk(p) && Reduces(old(p), p) && Premise(p, cr, c) && best < |p.occurs|
      ensures if good then SameModels(old(p), p) else Refuted(old(p))
      ensures (p == old(p) && subsumptionQueue == old(subsumptionQueue) && next == j + 1) || Size(p) < Size(old(p))
      ensures QueueOk(old(p), old(subsumptionQueue), tmpUnit) ==> QueueOk(p, subsumptionQueue, tmpUnit)
      ensures good ==> next <= |p.occurs[best]|
      ensures Checked(old(p), p, c, cr, old(p).occurs[best][j], subsumptionLim, r, good)
      ensures next == if r.AllBut? && r.p.v == best then j else j + 1
      ensures Requeues(old(p), old(subsumptionQueue), p, subsumptionQueue)
    {
      hide PreOk, Size, SameModels, Refuted, Fine, Reduces, Correct, Treated, Requeues;
      r := Neither;
      ghost var p0 := p;
      PreList(p, best);
      ReducesReflexive(p);
      SameReflexive(p);
      RequeuesReflexive(p, subsumptionQueue);
      var x := p.occurs[best][j];
      if !p.ca[x].deleted && x != cr && (subsumptionLim == -1 || |p.ca[x].lits| < subsumptionLim) {
        PreClause(p, x);
        CandidateShape(p.ca[x], |p.t.assigns|);
        PremiseShape(p, cr, c);
        hide Premise;
        var l := Compare(c, p.ca[x].lits, abs, p.ca[x].abs);
        r := l;
        if l == Subset {
          SubsumeCandidate(c, cr, x);
          DeletedAt(p0, x, best, j);
          DeletedRequeues(p0, subsumptionQueue, x);
          TreatedSo(p0, p, x, l, true);
          return true, j + 1, r;
        }
        if l.AllBut? {
          good := StrengthenCandidate(c, cr, best, j, l.p);
          TreatedSo(p0, p, x, l, good);
          return good, if l.p.v == best then j else j + 1, r;
        }
        TreatedSo(p0, p, x, l, true);
      }
      return true, j + 1, r;
    }

    method SubsumeCandidate(c: seq<Lit>, cr: nat, x: nat)
      requires PreOk(p) && Premise(p, cr, c) && Alive(p.ca, x) && x != cr && Correct(c, p.ca[x].lits, Subset)
      modifies this`p
      ensures PreOk(p) && Reduces(old(p), p) && Premise(p, cr, c) && p == Deleting(old(p), x)
      ensures SameModels(old(p), p) && Size(p) < Size(old(p))
      ensures QueueOk(old(p), subsumptionQueue, tmpUnit) ==> QueueOk(p, subsumptionQueue, tmpUnit)
    {
      hide PreOk, Size, SameModels, Premise, Reduces;
      ghost var p0 := p;
      SubsumeStep(p, cr, c, x);
      PreClause(p, x);
      RemoveClause(x);
      PremiseStays(p0, p, cr, c);
      QueuedStays(p0, p, subsumptionQueue, tmpUnit, x);
    }

    method StrengthenCandidate(c: seq<Lit>, cr: nat, best: nat, j: nat, l: Lit) returns (good: bool)
      requires PreOk(p) && Premise(p, cr, c) && best < |p.occurs| && j < |p.occurs[best]|
      requires Alive(p.ca, p.occurs[best][j]) && p.occurs[best][j] != cr && DistinctVars(p.ca[p.occurs[best][j]].lits)
      requires Correct(c, p.ca[p.occurs[best][j]].lits, AllBut(l))
      modifies this`p, this`subsumptionQueue
      ensures PreOk(p) && Reduces(old(p), p) && Premise(p, cr, c) && Size(p) < Size(old(p)) && best < |p.occurs|
      ensures if good then SameModels(old(p), p) else Refuted(old(p))
      ensures QueueOk(old(p), old(subsumptionQueue), tmpUnit) ==> QueueOk(p, subsumptionQueue, tmpUnit)
      ensures (if l.v == best then j else j + 1) <= |p.occurs[best]|
      ensures var x := old(p).occurs[best][j]; Replaces(old(p), x, RemoveFirst(old(p).ca[x].lits, l.Neg()), p, good)
      ensures Strengthened(old(p), p, old(p).occurs[best][j], l.Neg())
      ensures Requeues(old(p), old(subsumptionQueue), p, subsumptionQueue)
    {
      hide PreOk, Size, SameModels, Refuted, Premise, Reduces, Replaces, Strengthened, Requeues;
      ghost var p0 := p;
      var x := p.occurs[best][j];
      PreClause(p, x);
      good := StrengthenClause(x, l.Neg());
      StrengthenStep(p0, cr, c, x, l, p, good);
      QueuedStays(p0, p, old(subsumptionQueue), tmpUnit, x);
      AfterStrengthening(p0, p, c, cr, best, j, l, old(subsumptionQueue));
    }

    /** Looks for clauses that c, stored at cr or the dummy unit, subsumes or strengthens. */
    method CheckCandidates(c: seq<Lit>, abs: bv32, cr: nat, best: nat) returns (good: bool)
      requires PreOk(p) && Premise(p, cr, c) && abs == Abstraction(c) && best < |p.occurs| && HasVar(c, best)
      modifies this`p, this`subsumptionQueue
      ensures PreOk(p) && Reduces(old(p), p)
      ensures if good then SameModels(old(p), p) else Refuted(old(p))
      ensures (p.ca == old(p).ca && p.next == old(p).next && p.t == old(p).t && subsumptionQueue == old(subsumptionQueue)) || Size(p) < Size(old(p))
      ensures QueueOk(old(p), old(subsumptionQueue), tmpUnit) ==> QueueOk(p, subsumptionQueue, tmpUnit)
      ensures Requeues(old(p), old(subsumptionQueue), p, subsumptionQueue)
      ensures good ==> NothingTouched(p, cr, c, subsumptionLim)
    {
      hide PreOk, Size, SameModels, Refuted, Premise, Requeues, LeftFrom, Checked, NothingTouched, Reduces;
      ghost var p0, queue0 := p, subsumptionQueue;
      ReducesReflexive(p);
      SameReflexive(p);
      Lookup(best);
      LookedUp(p0, p, cr, c);
      LookedRequeues(p0, p, queue0);
      TouchedListed(p, cr, c, subsumptionLim, best);
      ghost var p1 := p;
      var j: nat := 0;
      while j < |p.occurs[best]|
        invariant PreOk(p) && Reduces(p0, p) && Premise(p, cr, c) && best < |p.occurs| && SameModels(p0, p)
        invariant (p == p1 && subsumptionQueue == old(subsumptionQueue)) || Size(p) < Size(p1)
        invariant QueueOk(p0, old(subsumptionQueue), tmpUnit) ==> QueueOk(p, subsumptionQueue, tmpUnit)
        invariant j <= |p.occurs[best]| && LeftFrom(p, cr, c, subsumptionLim, p.occurs[best], j)
        invariant Requeues(p0, queue0, p, subsumptionQueue)
        decreases Size(p), |p.occurs[best]| - j
      {
        ghost var p2, queue2, j2 := p, subsumptionQueue, j;
        ghost var r;
        good, j, r := CheckOne(c, abs, cr, best, j);
        ReducesTransitive(p0, p2, p);
        SameTransitive(p0, p2, p);
        RequeuesTransitive(p0, queue0, p2, queue2, p, subsumptionQueue);
        SameStore(p2, p);
        ScanStep(p2, p, c, cr, best, j2, subsumptionLim, r, good);
        if !good {
          return;
        }
      }
      ScanEnds(p, cr, c, subsumptionLim, p.occurs[best]);
      return true;
    }

    /** The variable of c with the shortest list. */
    method BestVar(c: seq<Lit>) returns (best: nat)
      requires c != [] && forall i :: 0 <= i < |c| ==> c[i].v < |p.occurs|
      ensures HasVar(c, best) && forall i :: 0 <= i < |c| ==> |p.occurs[best]| <= |p.occurs[c[i].v]|
    {
      best := c[0].v;
      assert HasVar(c, best);
      for i := 1 to |c|
        invariant HasVar(c, best) && best < |p.occurs|
        invariant forall k :: 0 <= k < i ==> |p.occurs[best]| <= |p.occurs[c[k].v]|
      {
        if |p.occurs[c[i].v]| < |p.occurs[best]| {
          best := c[i].v;
        }
      }
    }

    /** Takes the first clause off the queue and checks it against its candidates. */
    method CheckNext() returns (good: bool)
      requires PreOk(p) && subsumptionQueue != [] && QueueOk(p, subsumptionQueue, tmpUnit) && bwdsubAssigns <= |p.t.lits|
      modifies this`p, this`subsumptionQueue
      ensures PreOk(p) && Reduces(old(p), p) && QueueOk(p, subsumptionQueue, tmpUnit)
      ensures if good then SameModels(old(p), p) else Refuted(old(p))
      ensures (Size(p) == Size(old(p)) && p.t == old(p).t && |subsumptionQueue| < |old(subsumptionQueue)|) || Size(p) < Size(old(p))
      ensures good && Small(old(p), subsumptionLim) && Clean(old(p), old(subsumptionQueue), tmpUnit, bwdsubAssigns, subsumptionLim)
              ==> Small(p, subsumptionLim) && Clean(p, subsumptionQueue, tmpUnit, bwdsubAssigns, subsumptionLim)
    {
      hide PreOk, Size, SameModels, Refuted, Premise, Fine, Abstraction, Requeues, NothingTouched, Clean, Small, Reduces;
      ghost var p0, queue0 := p, subsumptionQueue;
      ghost var checked: seq<Lit> := [];
      var cr := subsumptionQueue[0];
      subsumptionQueue := subsumptionQueue[1..];
      ReducesReflexive(p);
      SameReflexive(p);
      PreFacts(p);
      if cr == BWDSUB_TMPUNIT {
        var c := [tmpUnit];
        UnitPremise(p, tmpUnit);
        var abs := CalcAbstraction(c);
        var best := BestVar(c);
        checked := c;
        good := CheckCandidates(c, abs, cr, best);
      } else if p.ca[cr].deleted {
        RequeuesReflexive(p, subsumptionQueue);
        NextDone(p0, queue0, p, subsumptionQueue, checked, tmpUnit, bwdsubAssigns, subsumptionLim);
        return true;
      } else {
        var c := p.ca[cr].lits;
        ClausePremise(p, cr);
        var best := BestVar(c);
        checked := c;
        good := CheckCandidates(c, p.ca[cr].abs, cr, best);
      }
      if good {
        NextDone(p0, queue0, p, subsumptionQueue, checked, tmpUnit, bwdsubAssigns, subsumptionLim);
      }
      StillTrue(p0, p, tmpUnit);
      SizeOf(p0, p);
    }

    /** Backward subsumption and strengthening until the queue and the new level 0 literals are
        used up. The formula keeps its models; a failure means that it has none. Where at first only
        clauses of the queue and new literals could simplify anything, nothing can in the end. */
    method BackwardSubsumptionCheck() returns (good: bool, ghost interrupted: bool)
      requires PreOk(p) && QueueOk(p, subsumptionQueue, tmpUnit) && bwdsubAssigns <= |p.t.lits|
      modifies this`p, this`subsumptionQueue, this`bwdsubAssigns, this`tmpUnit
      ensures PreOk(p) && Reduces(old(p), p) && QueueOk(p, subsumptionQueue, tmpUnit) && bwdsubAssigns <= |p.t.lits|
      ensures if good then SameModels(old(p), p) else Refuted(old(p))
      ensures good ==> subsumptionQueue == [] && bwdsubAssigns == |p.t.lits|
      ensures good && !interrupted && Small(old(p), subsumptionLim) && Clean(old(p), old(subsumptionQueue), old(tmpUnit), old(bwdsubAssigns), subsumptionLim)
              ==> Small(p, subsumptionLim) && Clean(p, [], tmpUnit, |p.t.lits|, subsumptionLim)
    {
      hide PreOk, Size, SameModels, Refuted, Clean, Small, Reduces;
      ghost var p0 := p;
      ghost var clean := Small(p, subsumptionLim) && Clean(p, subsumptionQueue, tmpUnit, bwdsubAssigns, subsumptionLim);
      interrupted := false;
      ReducesReflexive(p);
      SameReflexive(p);
      while |subsumptionQueue| > 0 || bwdsubAssigns < |p.t.lits|
        invariant PreOk(p) && Reduces(p0, p) && QueueOk(p, subsumptionQueue, tmpUnit) && bwdsubAssigns <= |p.t.lits|
        invariant SameModels(p0, p) && !interrupted
        invariant clean ==> Small(p, subsumptionLim) && Clean(p, subsumptionQueue, tmpUnit, bwdsubAssigns, subsumptionLim)
        decreases Size(p), |p.t.lits| - bwdsubAssigns, |subsumptionQueue|
      {
        if * {
          interrupted := true;
          subsumptionQueue, bwdsubAssigns := [], |p.t.lits|;
          break;
        }
        if |subsumptionQueue| == 0 && bwdsubAssigns < |p.t.lits| {
          PreFacts(p);
          OnTrailIsTrue(p.t, |p.t.assigns|, bwdsubAssigns);
          UnitIsNext(p, subsumptionQueue, tmpUnit, bwdsubAssigns, subsumptionLim);
          tmpUnit := p.t.lits[bwdsubAssigns];
          bwdsubAssigns := bwdsubAssigns + 1;
          subsumptionQueue := [BWDSUB_TMPUNIT];
        }
        ghost var p1 := p;
        good := CheckNext();
        ReducesTransitive(p0, p1, p);
        SameTransitive(p0, p1, p);
        TrailGrows(p1, p);
        if !good {
          return;
        }
      }
      return true, interrupted;
    }

    // ---------- adding clauses ----------

    /** Adds a clause: checks whether it is implied, drops what level 0 decides, and enqueues,
        stores or refutes the rest. */
    method AddClauseTo(ps: seq<Lit>) returns (good: bool)
      requires PreOk(p) && InRange(ps, |p.t.assigns|) && QueueOk(p, subsumptionQueue, tmpUnit) && p.next > 0
      modifies this`p, this`subsumptionQueue
      ensures PreOk(p) && QueueOk(p, subsumptionQueue, tmpUnit) && Gains(old(p), p, ps)
      ensures Adds(old(p), ps, p, good)
      ensures good && !useRcheck ==> Accounts(old(p), ps, p)
      ensures useRcheck && Resolves(old(p), ps) ==> good && p == old(p) && subsumptionQueue == old(subsumptionQueue)
      ensures NewQueued(old(p).clauses, old(subsumptionQueue), p.clauses, subsumptionQueue)
    {
      NewQueuedNone(p.clauses, subsumptionQueue);
      hide NewQueued, PreOk, Adds, Accounts, Gains, Sorted, SameLits, Normalised, FineList, ResolvesFrom;
      GainsReflexive(p, ps);
      PreFacts(p);
      if useRcheck {
        var implied := Implied(p.ca, p.clauses, p.t, ps);
        if implied {
          ImpliedAdds(p, ps);
          return true;
        }
      }
      var d := SortLits(ps);
      SortedRange(ps, d, |p.t.assigns|);
      var kept, redundant := Normalise(p.t, d);
      if redundant {
        RedundantAddsTo(p, ps, d);
        return true;
      }
      NotOpenTrue(p.t, ps, d, kept);
      good := AddKept(ps, d, kept);
    }

    method AddKept(ps: seq<Lit>, ghost d: seq<Lit>, kept: seq<Lit>) returns (good: bool)
      requires PreOk(p) && InRange(ps, |p.t.assigns|) && QueueOk(p, subsumptionQueue, tmpUnit) && p.next > 0
      requires SameLits(ps, d) && Normalised(p.t, d, kept, |d|)
      modifies this`p, this`subsumptionQueue
      ensures PreOk(p) && QueueOk(p, subsumptionQueue, tmpUnit) && Gains(old(p), p, ps)
      ensures Adds(old(p), ps, p, good) && (good ==> Accounts(old(p), ps, p))
      ensures NewQueued(old(p).clauses, old(subsumptionQueue), p.clauses, subsumptionQueue)
    {
      NewQueuedNone(p.clauses, subsumptionQueue);
      NewQueuedOne(p.clauses, subsumptionQueue, p.next);
      hide NewQueued, PreOk, Adds, Accounts, Gains, Normalised, SameLits;
      ghost var p0 := p;
      KeptEquivalent(p, ps, d, kept);
      KeptShape(p, ps, d, kept);
      if |kept| == 0 {
        EmptyAdds(p, ps, kept);
        GainsReflexive(p, ps);
        return false;
      } else if |kept| == 1 {
        good := EnqueueUnit(kept[0]);
        UnitAddsTo(p0, ps, kept, p, good);
        TrailGains(p0, p, ps);
        QueueStays(p0, p, subsumptionQueue, tmpUnit);
      } else {
        StoringOk(p, kept);
        StoredAddsTo(p, ps, kept);
        var cr := p.next;
        p := StoringClause(p, kept);
        subsumptionQueue := subsumptionQueue + [cr];
        StoredQueue(p0, kept, old(subsumptionQueue), tmpUnit);
        return true;
      }
    }

    // ---------- variable elimination ----------

    /** The live clauses with v, split by the sign of v. */
    method SplitOccurs(v: nat) returns (pos: seq<nat>, neg: seq<nat>)
      requires PreOk(p) && v < |p.occurs|
      modifies this`p
      ensures PreOk(p) && p == old(p).(occurs := p.occurs, dirty := p.dirty) && SplitOn(p, v, pos, neg)
      ensures v < |p.occurs| && Covers(pos, neg, p.occurs[v]) && |pos| + |neg| == |p.occurs[v]|
      ensures forall i :: 0 <= i < |p.occurs[v]| ==> Alive(p.ca, p.occurs[v][i]) && HasVar(p.ca[p.occurs[v][i]].lits, v)
      ensures Distinct(p.occurs[v]) && |p.dirty| == |p.occurs| && !p.dirty[v]
      ensures Distinct(pos) && Distinct(neg)
    {
      hide PreOk, HasVar;
      Lookup(v);
      LookupExact(p, v);
      pos, neg := SplitBySign(p.ca, p.occurs[v], v);
      SplitDone(p, v, pos, neg);
    }

    /** Records the clauses of one side, and the default value that they may overrule. */
    method RecordSide(side: seq<nat>, s: Lit) returns (ghost recs: seq<Record>)
      requires PreOk(p) && elimclauses == Packed(records)
      requires forall i :: 0 <= i < |side| ==> Alive(p.ca, side[i]) && s in p.ca[side[i]].lits
      modifies this`elimclauses, this`records
      ensures elimclauses == Packed(records) && records == old(records) + recs
      ensures EliminationRecords(recs, LitsOf(p.ca, side), s)
    {
      hide PreOk, Fine, Packed;
      recs := [];
      for i := 0 to |side|
        invariant elimclauses == Packed(records) && records == old(records) + recs && |recs| == i
        invariant forall k :: 0 <= k < i ==> Records(recs[k], p.ca[side[k]].lits, s)
      {
        PreClause(p, side[i]);
        CandidateShape(p.ca[side[i]], |p.t.assigns|);
        SignPosition(p.ca[side[i]].lits, s);
        ghost var r;
        elimclauses, r := MkElimClause(elimclauses, s.v, p.ca[side[i]].lits, records);
        RecordedOne(p.ca[side[i]].lits, r, s);
        assert old(records) + (recs + [r]) == old(records) + recs + [r];
        recs := recs + [r];
        records := records + [r];
      }
      elimclauses := MkElimUnit(elimclauses, s.Neg(), records);
      ghost var unit: Record := [s.Neg()];
      assert old(records) + (recs + [unit]) == old(records) + recs + [unit];
      assert (recs + [unit])[..|recs|] == recs;
      recs := recs + [unit];
      records := records + [unit];
    }

    /** Adds the consistent resolvents of all pairs. With the implication check switched on none
        is ever added: its parents, which are still there, imply it. */
    method AddResolvents(pos: seq<nat>, neg: seq<nat>, v: nat) returns (good: bool)
      requires PreOk(p) && SplitOn(p, v, pos, neg) && QueueOk(p, subsumptionQueue, tmpUnit) && p.next > 0
      modifies this`p, this`subsumptionQueue
      ensures PreOk(p) && QueueOk(p, subsumptionQueue, tmpUnit) && Joins(old(p), p, v)
      ensures if good then SameModels(old(p), p) else Refuted(old(p))
      ensures good && !useRcheck ==> Resolved(old(p), p, pos, neg, v, |pos|, 0)
      ensures useRcheck ==> good && p == old(p)
      ensures NewQueued(old(p).clauses, old(subsumptionQueue), p.clauses, subsumptionQueue)
    {
      hide PreOk, SameModels, Refuted, Joins, Resolved, SplitOn, NewQueued;
      ghost var p0 := p;
      NewQueuedNone(p.clauses, subsumptionQueue);
      JoinsReflexive(p, v);
      SameReflexive(p);
      NoPairs(p, pos, neg, v);
      for i := 0 to |pos|
        invariant PreOk(p) && QueueOk(p, subsumptionQueue, tmpUnit) && Joins(p0, p, v) && SameModels(p0, p) && p.next > 0
        invariant !useRcheck ==> Resolved(p0, p, pos, neg, v, i, 0)
        invariant useRcheck ==> p == p0
        invariant NewQueued(p0.clauses, old(subsumptionQueue), p.clauses, subsumptionQueue)
      {
        for j := 0 to |neg|
          invariant PreOk(p) && QueueOk(p, subsumptionQueue, tmpUnit) && Joins(p0, p, v) && SameModels(p0, p) && p.next > 0
          invariant !useRcheck ==> Resolved(p0, p, pos, neg, v, i, j)
          invariant useRcheck ==> p == p0
          invariant NewQueued(p0.clauses, old(subsumptionQueue), p.clauses, subsumptionQueue)
        {
          ghost var crs1, queue1 := p.clauses, subsumptionQueue;
          good := AddPair(p0, pos, neg, v, i, j);
          NewQueuedMore(p0.clauses, old(subsumptionQueue), crs1, queue1, p.clauses, subsumptionQueue);
          if !good {
            return;
          }
        }
        NextRow(p0, p, pos, neg, v, i);
      }
      return true;
    }

    method AddPair(ghost p0: Pre, pos: seq<nat>, neg: seq<nat>, v: nat, i: nat, j: nat) returns (good: bool)
      requires PreOk(p0) && SplitOn(p0, v, pos, neg) && i < |pos| && j < |neg|
      requires PreOk(p) && QueueOk(p, subsumptionQueue, tmpUnit) && Joins(p0, p, v) && SameModels(p0, p) && p.next > 0
      requires !useRcheck ==> Resolved(p0, p, pos, neg, v, i, j)
      modifies this`p, this`subsumptionQueue
      ensures PreOk(p) && QueueOk(p, subsumptionQueue, tmpUnit) && Joins(p0, p, v) && p.next > 0
      ensures if good then SameModels(p0, p) else Refuted(p0)
      ensures good && !useRcheck ==> Resolved(p0, p, pos, neg, v, i, j + 1)
      ensures useRcheck ==> good && p == old(p)
      ensures NewQueued(old(p).clauses, old(subsumptionQueue), p.clauses, subsumptionQueue)
    {
      NewQueuedNone(p.clauses, subsumptionQueue);
      hide NewQueued, PreOk, SameModels, Refuted, Joins, Resolved, SplitOn, Gains, Adds, Accounts, Resolves;
      ghost var p1 := p;
      PairShape(p0, v, pos, neg, i, j);
      JoinedClause(p0, p, v, pos[i]);
      JoinedClause(p0, p, v, neg[j]);
      JoinsSize(p0, p, v);
      var consistent, out := Merge(p.ca[pos[i]].lits, p.ca[neg[j]].lits, v);
      if consistent {
        ResolventRange(p.ca[pos[i]].lits, p.ca[neg[j]].lits, v, out, |p.t.assigns|);
        ResolventResolves(p0, p, pos, neg, v, i, j, out);
        good := AddClauseTo(out);
        GainsSize(p1, p, out);
        JoinsMore(p0, p1, p, v, out);
        PairAdded(p0, p1, p, pos, neg, v, i, j, out, good);
        if good && !useRcheck {
          PairResolved(p0, p1, p, pos, neg, v, i, j, out);
        }
      } else {
        good := true;
        PairClashes(p0, p, pos, neg, v, i, j);
      }
    }

    // ---------- the invariant over whole runs ----------

    /** What is left of the formula says what was given: every model of the original clauses is a
        model of it, and unless an elimination lost something its models lift back. */
    ghost predicate Valid()
      reads this
    {
      && PreOk(p) && p.next > 0 && QueueOk(p, subsumptionQueue, tmpUnit) && bwdsubAssigns <= |p.t.lits|
      && |frozen| == |eliminated| == |p.t.assigns|
      && if ok then StackOk(p, eliminated, elimclauses, records) && Faithful(p, original, records, lossy)
         else Unsat(original)
    }

    /** Deletes the listed clauses. */
    method RemoveAll(cls: seq<nat>)
      requires PreOk(p) && Distinct(cls) && forall i :: 0 <= i < |cls| ==> Alive(p.ca, cls[i])
      modifies this`p
      ensures PreOk(p) && Reduces(old(p), p) && Purged(old(p), p, cls) && p.occurs == old(p).occurs
    {
      hide PreOk, Reduces, Size;
      ghost var p0 := p;
      ReducesReflexive(p);
      assert PurgedPrefix(p0, p, cls, 0);
      for i := 0 to |cls|
        invariant PreOk(p) && Reduces(p0, p) && PurgedPrefix(p0, p, cls, i) && p.occurs == p0.occurs
        invariant forall k :: i <= k < |cls| ==> Alive(p.ca, cls[k])
      {
        ghost var p1 := p;
        RemoveClause(cls[i]);
        ReducesTransitive(p0, p1, p);
      }
    }

    /** Eliminates v unless that would produce too many or too long clauses. A failure means that
        the original clauses are contradictory. */
    method EliminateVar(v: nat) returns (good: bool, ghost pos: seq<nat>, ghost neg: seq<nat>, ghost recs: seq<Record>)
      requires Valid() && ok && v < |eliminated| && !frozen[v] && !eliminated[v] && !p.t.Assigned(v)
      modifies this`p, this`subsumptionQueue, this`bwdsubAssigns, this`tmpUnit
      modifies this`eliminated, this`elimclauses, this`records, this`lossy
      ensures good ==> Valid() && Continues(old(p).t, p.t) && |p.t.assigns| == |old(p).t.assigns|
      ensures SplitOn(old(p), v, pos, neg) && Distinct(pos) && Distinct(neg) && AllNonempty(recs)
      ensures good ==>
                if Bounded(LitsOf(old(p).ca, pos), LitsOf(old(p).ca, neg), v, |pos| + |neg| + grow, clauseLim)
                then eliminated == old(eliminated)[v := true] && records == old(records) + recs
                     && Kept(old(p), p, v, pos, neg, recs, useRcheck) && lossy == Loses(old(p), v, pos, neg, old(lossy), useRcheck)
                else eliminated == old(eliminated) && p.ca == old(p).ca && lossy == old(lossy)
      ensures good && PairCount(LitsOf(old(p).ca, pos), LitsOf(old(p).ca, neg), v) == 0 ==> lossy == old(lossy)
      ensures !useRcheck ==> lossy == old(lossy)
      ensures !good && useRcheck ==> forall m: Model :: !ModelsOff(m, old(p), v)
      ensures !good ==> Unsat(original) && PreOk(p) && |eliminated| == |p.t.assigns| == |old(p).t.assigns| && p.next > 0
      ensures !good ==> QueueOk(p, subsumptionQueue, tmpUnit) && bwdsubAssigns <= |p.t.lits|
    {
      hide PreOk, StackOk, Faithful, Reduces, SameModels, Refuted, SplitOn, Continues, Bounded, Kept, Loses, PairCount, ModelsOff;
      ghost var p0 := p;
      PreFacts(p);
      StartSound(p.ca, p.t);
      recs := [];
      var left, right := SplitOccurs(v);
      pos, neg := left, right;
      SplitSame(p, p0, v, pos, neg);
      LookedStack(p0, p, eliminated, elimclauses, records, original, lossy);
      LookedQueue(p0, p, subsumptionQueue, tmpUnit);
      PosNegAlive(p, v, pos, neg);
      var within := WithinLimits(LitsOf(p.ca, left), LitsOf(p.ca, right), v, |p.occurs[v]| + grow, clauseLim);
      if !within {
        return true, pos, neg, recs;
      }
      ghost var p1 := p;
      good, recs := ResolveAway(v, left, right);
      if good {
        KeptLooked(p0, p1, p, v, pos, neg, recs, old(lossy), useRcheck);
        ghost var p2 := p;
        ghost var cut;
        good, cut := BackwardSubsumptionCheck();
        AfterCheck(p2, p, eliminated, elimclauses, records, original, lossy, good);
        AfterElimination(p0, p2, p, v, pos, neg, recs, useRcheck, good);
        ContinuesTransitive(p0.t, p2.t, p.t);
      }
    }

    /** Deletes the clauses in the list of v. */
    method RemoveOccurring(v: nat)
      requires PreOk(p) && v < |p.occurs| && Distinct(p.occurs[v]) && QueueOk(p, subsumptionQueue, tmpUnit)
      requires forall i :: 0 <= i < |p.occurs[v]| ==> Alive(p.ca, p.occurs[v][i])
      modifies this`p
      ensures PreOk(p) && Purged(old(p), p, old(p).occurs[v]) && p.occurs == old(p).occurs
      ensures QueueOk(p, subsumptionQueue, tmpUnit) && p.t == old(p).t && p.next == old(p).next
    {
      hide PreOk, Purged, Reduces;
      ghost var p0 := p;
      var cls := p.occurs[v];
      RemoveAll(cls);
      PurgedTrail(p0, p, cls);
      QueueStays(p0, p, subsumptionQueue, tmpUnit);
    }

    /** Records the side with fewer clauses. */
    method RecordSmaller(v: nat, pos: seq<nat>, neg: seq<nat>) returns (ghost recs: seq<Record>)
      requires PreOk(p) && elimclauses == Packed(records) && SplitOn(p, v, pos, neg) && AllNonempty(records)
      modifies this`elimclauses, this`records
      ensures elimclauses == Packed(records) && records == old(records) + recs && AllNonempty(recs)
      ensures var s := Lit(v, |pos| > |neg|); EliminationRecords(recs, LitsOf(p.ca, if s.neg then neg else pos), s)
    {
      hide PreOk, SplitOn, EliminationRecords;
      PosNegAlive(p, v, pos, neg);
      ghost var records0 := records;
      if |pos| > |neg| {
        recs := RecordSide(neg, Lit(v, true));
      } else {
        recs := RecordSide(pos, Lit(v, false));
      }
      LiftedNonempty(p, v, pos, neg, recs, Lit(v, |pos| > |neg|), records0);
    }

    /** Records the clauses of the smaller side, adds the resolvents and removes the clauses of v. */
    method ResolveAway(v: nat, pos: seq<nat>, neg: seq<nat>) returns (good: bool, ghost recs: seq<Record>)
      requires Valid() && ok && v < |eliminated| && !eliminated[v] && !p.t.Assigned(v) && SplitOn(p, v, pos, neg)
      requires v < |p.occurs| && Covers(pos, neg, p.occurs[v]) && Distinct(p.occurs[v])
      requires forall i :: 0 <= i < |p.occurs[v]| ==> Alive(p.ca, p.occurs[v][i])
      modifies this`p, this`subsumptionQueue, this`eliminated, this`elimclauses, this`records, this`lossy
      ensures good ==> Valid() && eliminated == old(eliminated)[v := true] && records == old(records) + recs
      ensures AllNonempty(recs) && (good ==> Kept(old(p), p, v, pos, neg, recs, useRcheck))
      ensures good ==> lossy == Loses(old(p), v, pos, neg, old(lossy), useRcheck)
      ensures (useRcheck ==> good) && (!good ==> lossy == old(lossy))
      ensures Continues(old(p).t, p.t) && |p.t.assigns| == |old(p).t.assigns|
      ensures !good ==> Unsat(original) && PreOk(p) && |eliminated| == |p.t.assigns| && p.next > 0
      ensures !good ==> QueueOk(p, subsumptionQueue, tmpUnit) && bwdsubAssigns <= |p.t.lits|
    {
      hide PreOk, StackOk, Faithful, Reduces, SameModels, Refuted, SplitOn, Continues, Joins, Resolved, EliminationRecords, Purged, Covers, NoneWith;
      hide Kept, PairsImplied, Loses, QueueOk;
      ghost var p0, eliminated0, records0 := p, eliminated, records;
      StackPacked(p, eliminated, elimclauses, records);
      eliminated := eliminated[v := true];
      ghost var s := Lit(v, |pos| > |neg|);
      recs := RecordSmaller(v, pos, neg);
      good := AddResolvents(pos, neg, v);
      JoinedTrail(p0, p, v);
      if !good {
        FaithfulRefuted(p0, eliminated0, records0, original, lossy);
        return;
      }
      FinishElimination(p0, v, pos, neg, recs, s, eliminated0, records0);
    }

    /** Deletes the clauses of v, whose resolvents are there and which are recorded. */
    method FinishElimination(ghost p0: Pre, v: nat, ghost pos: seq<nat>, ghost neg: seq<nat>, ghost recs: seq<Record>, ghost s: Lit,
                             ghost eliminated0: seq<bool>, ghost records0: seq<Record>)
      requires PreOk(p0) && SplitOn(p0, v, pos, neg) && !p0.t.Assigned(v) && v < |eliminated0| && !eliminated0[v] && v < |p0.occurs|
      requires StackOk(p0, eliminated0, Packed(records0), records0) && Faithful(p0, original, records0, lossy)
      requires Joins(p0, p, v) && SameModels(p0, p) && (if useRcheck then p == p0 else Resolved(p0, p, pos, neg, v, |pos|, 0))
      requires EliminationRecords(recs, LitsOf(p0.ca, if s.neg then neg else pos), s) && s.v == v
      requires elimclauses == Packed(records) && records == records0 + recs && eliminated == eliminated0[v := true]
      requires Covers(pos, neg, p0.occurs[v]) && Distinct(p0.occurs[v])
      requires forall i :: 0 <= i < |p0.occurs[v]| ==> Alive(p0.ca, p0.occurs[v][i])
      requires PreOk(p) && QueueOk(p, subsumptionQueue, tmpUnit)
      modifies this`p, this`lossy
      ensures PreOk(p) && QueueOk(p, subsumptionQueue, tmpUnit) && p.t == old(p).t && p.next == old(p).next
      ensures lossy == Loses(p0, v, pos, neg, old(lossy), useRcheck)
      ensures StackOk(p, eliminated, elimclauses, records) && Faithful(p, original, records, lossy)
      ensures AllNonempty(recs) && Kept(p0, p, v, pos, neg, recs, useRcheck)
      ensures v < |p.occurs| && p.occurs[v] == []
    {
      hide PreOk, StackOk, Faithful, SameModels, SplitOn, Joins, Resolved, EliminationRecords, Purged, Covers, NoneWith, Kept, Loses;
      JoinedTrail(p0, p, v);
      JoinedAlive(p0, p, v, p.occurs[v]);
      ghost var p1 := p;
      RemoveOccurring(v);
      EliminationDone(p0, p1, p, v, pos, neg, recs, s, eliminated0, records0, original, lossy, useRcheck, elimclauses);
      lossy := Loses(p0, v, pos, neg, lossy, useRcheck);
      ClearedState(p, v, eliminated, elimclauses, records, original, lossy);
      LookedQueue(p, p.(occurs := p.occurs[v := []]), subsumptionQueue, tmpUnit);
      KeptCleared(p0, p, v, pos, neg, recs, useRcheck);
      p := p.(occurs := p.occurs[v := []]);
    }

    // ---------- asymmetric branching ----------

    /** Assumes the negation of the clause without v; if that propagates to a conflict, a literal
        of the clause is superfluous. */
    method Asymm(v: nat, cr: nat) returns (good: bool, ghost dropped: Option<Lit>)
      requires PreOk(p) && QueueOk(p, subsumptionQueue, tmpUnit) && cr in p.ca
      requires Alive(p.ca, cr) ==> HasVar(p.ca[cr].lits, v)
      modifies this`p, this`subsumptionQueue
      ensures PreOk(p) && Reduces(old(p), p) && QueueOk(p, subsumptionQueue, tmpUnit)
      ensures if good then SameModels(old(p), p) else Refuted(old(p))
      ensures v < |old(p).occurs| ==> v < |p.occurs| && |p.occurs[v]| <= |old(p).occurs[v]|
      ensures v < |old(p).occurs| ==> forall x :: x in p.occurs[v] ==> x in old(p).occurs[v]
      ensures dropped.None? ==> good && subsumptionQueue == old(subsumptionQueue)
      ensures Branched(old(p), p, cr, v, dropped)
    {
      hide PreOk, SameModels, Refuted, Reduces, Replaces, Shortened, Fine, Sound, LastLeftOut, Strengthened, HasTrue;
      hide Negated, StableList, ConflictFree, Least, Fixpoint, Keeps, OnlyNegates;
      ghost var p0 := p;
      dropped := None;
      ReducesReflexive(p);
      SameReflexive(p);
      if p.ca[cr].deleted {
        return true, None;
      }
      PreFacts(p);
      PreClause(p, cr);
      CandidateShape(p.ca[cr], |p.t.assigns|);
      FineShape(p.ca[cr], |p.t.assigns|);
      var c := p.ca[cr].lits;
      var satisfied := HasTrueLit(p.t, c);
      if satisfied {
        return true, None;
      }
      var t, l := NegateAllBut(p.t, c, v);
      var conflict, t' := UnitPropagate(p.ca, p.clauses, t);
      if conflict {
        AsymmSound(p, cr, c, v, t, t', l);
        dropped := Some(l);
        NoneConflictFree(p, t, t', c, v);
        good := DropLiteral(cr, l, v);
        return;
      }
      StaysNegated(p, t, t', c, v);
      return true, None;
    }

    /** Takes a literal out of a clause that follows without it. */
    method DropLiteral(cr: nat, l: Lit, ghost v: nat) returns (good: bool)
      requires PreOk(p) && QueueOk(p, subsumptionQueue, tmpUnit) && Alive(p.ca, cr) && l in p.ca[cr].lits
      requires forall m: Model :: Models(m, p) ==> SatClause(m, RemoveFirst(p.ca[cr].lits, l))
      modifies this`p, this`subsumptionQueue
      ensures PreOk(p) && Reduces(old(p), p) && QueueOk(p, subsumptionQueue, tmpUnit)
      ensures if good then SameModels(old(p), p) else Refuted(old(p))
      ensures v < |old(p).occurs| ==> v < |p.occurs| && |p.occurs[v]| <= |old(p).occurs[v]|
      ensures v < |old(p).occurs| ==> forall x :: x in p.occurs[v] ==> x in old(p).occurs[v]
      ensures Strengthened(old(p), p, cr, l)
    {
      hide PreOk, Models, SameModels, Refuted, Reduces, Replaces, Strengthened, Fine;
      ghost var p0 := p;
      PreClause(p, cr);
      CandidateShape(p.ca[cr], |p.t.assigns|);
      good := StrengthenClause(cr, l);
      AsymmStep(p0, cr, l, p, good);
      QueuedStays(p0, p, old(subsumptionQueue), tmpUnit, cr);
      ShorterList(p0, cr, l, v, p);
    }

    /** Asymmetric branching on all clauses of v, then backward subsumption. */
    method AsymmVar(v: nat) returns (good: bool, ghost turns: seq<Branch>)
      requires PreOk(p) && QueueOk(p, subsumptionQueue, tmpUnit) && bwdsubAssigns <= |p.t.lits| && v < |p.occurs|
      modifies this`p, this`subsumptionQueue, this`bwdsubAssigns, this`tmpUnit
      ensures PreOk(p) && Reduces(old(p), p) && QueueOk(p, subsumptionQueue, tmpUnit) && bwdsubAssigns <= |p.t.lits|
      ensures if good then SameModels(old(p), p) else Refuted(old(p))
      ensures good ==> old(p).t.Assigned(v) || Branching(old(p), turns, v)
      ensures old(p).t.Assigned(v) ==> good && p.t == old(p).t && p.ca == old(p).ca && subsumptionQueue == old(subsumptionQueue)
    {
      hide PreOk, SameModels, Refuted, Reduces, Branched, Chained;
      ghost var p0 := p;
      turns := [];
      Lookup(v);
      LookedReduces(p0, p);
      LookedQueue(p0, p, subsumptionQueue, tmpUnit);
      PreFacts(p);
      ghost var looked := p;
      NoTurns(looked, v);
      if p.t.assigns[v] != LUndef || |p.occurs[v]| == 0 {
        return true, turns;
      }
      var i := 0;
      while i < |p.occurs[v]|
        invariant PreOk(p) && Reduces(p0, p) && SameModels(p0, p) && QueueOk(p, subsumptionQueue, tmpUnit) && v < |p.occurs|
        invariant bwdsubAssigns <= |p.t.lits|
        invariant |turns| == i && Chained(looked, turns, v) && p == Current(looked, turns)
        decreases |p.occurs[v]| - i
      {
        ghost var p1 := p;
        PreList(p, v);
        LookupExact(p, v);
        ghost var dropped;
        good, dropped := Asymm(v, p.occurs[v][i]);
        ReducesTransitive(p0, p1, p);
        SameTransitive(p0, p1, p);
        StillTrue(p1, p, tmpUnit);
        if !good {
          return;
        }
        OneMoreTurn(looked, turns, v, p1, p, dropped);
        turns := turns + [Branch(p1, dropped, p)];
        i := i + 1;
      }
      ghost var p2 := p;
      ghost var cut;
      good, cut := BackwardSubsumptionCheck();
      ReducesTransitive(p0, p2, p);
      SameTransitive(p0, p2, p);
    }

    // ---------- the preprocessing run ----------

    /** Tries the given variables in order. False means that the original clauses are
        contradictory. Otherwise each of them is eliminated in the end, or has a value, is frozen, or
        was beyond the limits in its turn; no other variable is eliminated. */
    method EliminateVars(order: seq<nat>) returns (r: bool, ghost tried: seq<Option<Attempt>>)
      requires Valid() && ok && forall i :: 0 <= i < |order| ==> order[i] < |eliminated|
      modifies this`p, this`subsumptionQueue, this`bwdsubAssigns, this`tmpUnit
      modifies this`eliminated, this`elimclauses, this`records, this`lossy, this`frozen, this`ok
      ensures Valid() && r == ok
      ensures !useRcheck ==> lossy == old(lossy)
      ensures r ==> frozen == old(frozen) && |tried| == |order| && |eliminated| == |old(eliminated)|
      ensures r ==> forall i :: 0 <= i < |order| ==> TurnDone(order[i], tried[i], p, eliminated, frozen, useElim, grow, clauseLim)
      ensures r ==> OnlyTried(order, tried, old(eliminated), eliminated, grow, clauseLim)
    {
      hide PreOk, StackOk, Faithful, Reduces, TurnDone, Continues, OnlyTried, Succeeded;
      tried := [];
      NothingTried(order, eliminated, grow, clauseLim);
      StartSound(p.ca, p.t);
      for i := 0 to |order|
        invariant Valid() && ok && |eliminated| == |old(eliminated)| && frozen == old(frozen) && |tried| == i
        invariant !useRcheck ==> lossy == old(lossy)
        invariant forall k :: 0 <= k < i ==> TurnDone(order[k], tried[k], p, eliminated, frozen, useElim, grow, clauseLim)
        invariant OnlyTried(order[..i], tried, old(eliminated), eliminated, grow, clauseLim)
      {
        ghost var p1, eliminated1 := p, eliminated;
        var good;
        ghost var a, turns;
        good, a, turns := TryVar(order[i]);
        if !good {
          ok := false;
          return false, tried;
        }
        forall k | 0 <= k < i
          ensures TurnDone(order[k], tried[k], p, eliminated, frozen, useElim, grow, clauseLim)
        {
          TurnStays(order[k], tried[k], p1, p, eliminated1, eliminated, frozen, useElim, grow, clauseLim);
        }
        OneMoreTried(order, i, tried, a, old(eliminated), eliminated1, eliminated, grow, clauseLim);
        tried := tried + [a];
      }
      assert order[..|order|] == order;
      return true, tried;
    }

    /** Asymmetric branching on v, which is frozen meanwhile. */
    method BranchOn(v: nat) returns (good: bool, ghost turns: seq<Branch>)
      requires Valid() && ok && v < |eliminated|
      modifies this`p, this`subsumptionQueue, this`bwdsubAssigns, this`tmpUnit, this`frozen
      ensures |frozen| == |old(frozen)|
      ensures good ==> old(p).t.Assigned(v) || Branching(old(p), turns, v)
      ensures good ==> Valid() && frozen == old(frozen) && Continues(old(p).t, p.t)
      ensures !good ==> Unsat(original) && PreOk(p) && |eliminated| == |p.t.assigns| && p.next > 0
      ensures !good ==> QueueOk(p, subsumptionQueue, tmpUnit) && bwdsubAssigns <= |p.t.lits|
    {
      hide PreOk, StackOk, Faithful, Reduces, SameModels, Refuted, Continues;
      PreFacts(p);
      var wasFrozen := frozen[v];
      frozen := frozen[v := true];
      ghost var p1 := p;
      good, turns := AsymmVar(v);
      AfterCheck(p1, p, eliminated, elimclauses, records, original, lossy, good);
      if !good {
        return;
      }
      frozen := frozen[v := wasFrozen];
    }

    /** Asymmetric branching and elimination of one variable, as far as they are switched on. Says
        what branching did, and whether and where an elimination was tried. */
    method TryVar(v: nat) returns (good: bool, ghost a: Option<Attempt>, ghost turns: seq<Branch>)
      requires Valid() && ok && v < |eliminated|
      modifies this`p, this`subsumptionQueue, this`bwdsubAssigns, this`tmpUnit
      modifies this`eliminated, this`elimclauses, this`records, this`lossy, this`frozen
      ensures !useRcheck ==> lossy == old(lossy)
      ensures |eliminated| == |old(eliminated)| && |frozen| == |old(frozen)|
      ensures good ==> Valid() && frozen == old(frozen) && Continues(old(p).t, p.t)
      ensures good ==> TurnDone(v, a, p, eliminated, frozen, useElim, grow, clauseLim)
      ensures good ==> eliminated == old(eliminated) || (eliminated == old(eliminated)[v := true] && Succeeded(v, v, a, grow, clauseLim))
      ensures good && !useAsymm ==> if a.Some? then a.value.state == old(p) else p == old(p)
      ensures good && useAsymm && !old(eliminated)[v] && !old(p).t.Assigned(v) ==> Branching(old(p), turns, v)
      ensures !good ==> Unsat(original) && PreOk(p) && |eliminated| == |p.t.assigns| && p.next > 0
      ensures !good ==> QueueOk(p, subsumptionQueue, tmpUnit) && bwdsubAssigns <= |p.t.lits|
    {
      hide PreOk, StackOk, Faithful, Reduces, SameModels, Refuted, Continues, Bounded, SplitOn, Kept, Loses, PairCount, ModelsOff, Branching;
      PreFacts(p);
      StartSound(p.ca, p.t);
      a, turns := None, [];
      if eliminated[v] || p.t.assigns[v] != LUndef {
        return true, a, turns;
      }
      if useAsymm {
        good, turns := BranchOn(v);
        if !good {
          return;
        }
      }
      if useElim && p.t.assigns[v] == LUndef && !frozen[v] {
        ghost var p2 := p;
        ghost var pos, neg, recs;
        good, pos, neg, recs := EliminateVar(v);
        a := Some(Attempt(p2, pos, neg));
        if good {
          ContinuesTransitive(old(p).t, p2.t, p.t);
        }
        return;
      }
      return true, a, turns;
    }

    // ---------- clauses and models ----------

    constructor (n: nat)
      ensures Valid() && ok && !lossy && original == {} && p == FreshPre(n) && elimclauses == [] && records == []
      ensures |eliminated| == |frozen| == n && forall v :: 0 <= v < n ==> !eliminated[v] && !frozen[v]
      ensures subsumptionQueue == [] && bwdsubAssigns == 0 && !useRcheck && grow == 0 && clauseLim == 20
    {
      EmptyPre(n);
      p := FreshPre(n);
      subsumptionQueue, bwdsubAssigns, tmpUnit, subsumptionLim := [], 0, Lit(0, false), 1000;
      useRcheck, useAsymm, useElim, grow, clauseLim := false, false, true, 0, 20;
      frozen, eliminated := seq(n, _ => false), seq(n, _ => false);
      elimclauses, records, original, lossy, ok := [], [], {}, false, true;
    }

    /** Adds a clause over variables that are not eliminated. False means that the clauses are
        contradictory. */
    method AddClause(ps: seq<Lit>) returns (r: bool)
      requires Valid() && forall i :: 0 <= i < |ps| ==> ps[i].v < |eliminated| && !eliminated[ps[i].v]
      modifies this`p, this`subsumptionQueue, this`original, this`ok
      ensures Valid() && original == old(original) + {ps} && r == ok
      ensures NewQueued(old(p).clauses, old(subsumptionQueue), p.clauses, subsumptionQueue)
    {
      NewQueuedNone(p.clauses, subsumptionQueue);
      hide NewQueued, PreOk, StackOk, Faithful, Gains, Adds, Accounts;
      if !ok {
        MoreUnsat(original, ps);
        original := original + {ps};
        return false;
      }
      ghost var p0 := p;
      r := AddClauseTo(ps);
      GainsSize(p0, p, ps);
      GainsTrail(p0, p, ps);
      AddedFaithful(p0, p, ps, eliminated, elimclauses, records, original, lossy, r);
      original := original + {ps};
      ok := r;
    }

    /** What is left is satisfiable exactly when the original clauses are. */
    lemma Equisatisfiable()
      requires Valid() && ok && !lossy
      ensures (exists m: Model :: SatAll(m, original)) <==> exists m: Model :: Models(m, p)
    {
      if m: Model :| Models(m, p) {
        assert SatAll(Lift(m, records), original);
      }
    }

    /** A model of what is left that decides all remaining variables is extended to a model of the
        original clauses that decides all variables. */
    method Extend(model0: seq<LBool>) returns (model: seq<LBool>)
      requires Valid() && ok && |model0| == |eliminated|
      requires forall v :: 0 <= v < |eliminated| && !eliminated[v] ==> model0[v] != LUndef
      requires Models(ModelOf(model0), p)
      ensures |model| == |model0| && forall v :: 0 <= v < |model| ==> model[v] != LUndef
      ensures !lossy ==> SatAll(ModelOf(model), original)
      ensures forall v :: 0 <= v < |model| && !eliminated[v] ==> model[v] == model0[v]
    {
      hide PreOk, Readable, DefinedAfter, Packed;
      model := ExtendModel(model0, elimclauses, records);
      LiftAgrees(model0, records, Remaining(eliminated));
      ExtendKeeps(model0, records, eliminated);
    }
  }
}
