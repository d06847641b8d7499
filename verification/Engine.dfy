/** The search engine: trail, watched-literal propagation, conflict analysis and search. */
module Engine {
  import opened Wrappers
  import opened Cnf
  import opened TrailState
  import opened ClauseDb
  import opened Cuts
  import opened Invariants
  import opened Propagation
  import opened Visits
  import opened VarHeap
  import opened Attach
  import opened Purgatory
  import opened PropagationQueue
  import opened Analysis
  import opened Minimise
  import opened Redundancy
  import opened ImplicationPoints
  import opened SearchSteps
  import opened ProblemClauses
  import opened FinalConflict
  import opened Growth
  import opened Collection

  class Solver {
    var ok: bool
    /** trail, trail_lim, assigns and vardata. */
    var tr: Trail
    /** The clause arena and the watcher lists. */
    var db: Db
    /** The lists smudged by lazy clause removal. */
    var dirt: Dirt
    var qhead: nat
    /** The marks of conflict analysis. */
    var seen: seq<bool>
    var analyzeToclear: seq<Lit>
    /** Stamps for marking variables and levels; MYFLAG is the current stamp. */
    var permDiff: seq<nat>
    var flag: nat
    /** 0 for none, 1 for basic, 2 for deep clause minimisation. */
    var ccminMode: nat
    /** Up to which length and how many levels a learnt clause is trimmed with binary clauses. */
    var lbSizeMinimizingClause: nat
    var lbLBDMinimizingClause: nat
    /** Whether, and from which size on, the size of a clause counts besides its levels. */
    var reduceOnSize: bool
    var reduceOnSizeSize: nat
    const order: Heap
    var varInc: real
    var promoteOneWatchedClause: bool

    /** The stored problem clauses, the learnt clauses and the clauses received from other threads. */
    var clauses: seq<nat>
    var learnts: seq<nat>
    var unaryWatchedClauses: seq<nat>
    var decision: seq<bool>
    /** The preferred sign of each variable. */
    var polarity: seq<bool>
    var phaseSaving: nat
    /** Whether branching ignores the preferred sign. */
    var rndPol: bool
    var removeSatisfied: bool
    /** What the other threads will have sent by each of the next import points. */
    var inbox: seq<Batch>
    var plingeling: bool
    var assumptions: seq<Lit>
    var conflict: seq<Lit>
    var model: seq<LBool>

    /** The clauses given to the solver, and what each stored clause says. */
    ghost var problem: Problem

    constructor ()
      ensures ok && Valid() && fresh(order) && tr == Trail([], [], [], [], [], []) && problem == Problem({}, map[])
    {
      EmptyInv();
      hide Inv, Assumed, Recorded;
      ok, qhead, problem := true, 0, Problem({}, map[]);
      tr := Trail([], [], [], [], [], []);
      db := Db(map[], 0, map[], map[], map[]);
      dirt := Dirt([], [], []);
      seen, analyzeToclear, permDiff, flag, ccminMode := [], [], [], 0, 2;
      lbSizeMinimizingClause, lbLBDMinimizingClause, reduceOnSize, reduceOnSizeSize := 30, 6, false, 12;
      order := new Heap();
      varInc := 1.0;
      promoteOneWatchedClause := true;
      clauses, learnts, unaryWatchedClauses := [], [], [];
      decision, polarity, phaseSaving, removeSatisfied := [], [], 2, true;
      assumptions, conflict, model, rndPol := [], [], [], false;
      inbox, plingeling := [], false;
    }

    function Val(l: Lit): LBool
      requires l.v < |tr.assigns|
      reads this`tr
    {
      Value(tr.assigns, l)
    }

    // ---------- trail ----------

    method UncheckedEnqueue(p: Lit, from: Option<nat>)
      requires tr.Sized(|tr.assigns|) && tr.IsUndef(p)
      modifies this`tr
      ensures tr == old(tr).Push(p, from)
    {
      tr := tr.(assigns := tr.assigns[p.v := if p.neg then LFalse else LTrue]);
      tr := tr.(level := tr.level[p.v := |tr.lim|], reason := tr.reason[p.v := from]);
      tr := tr.(lits := tr.lits + [p], pos := tr.pos[p.v := |tr.lits|]);
    }

    // ---------- propagation ----------

    /** Visits the k-th binary watcher of p: its blocker becomes true, or its clause is false. */
    method VisitBinary(p: Lit, wbin: seq<Watcher>, k: nat, ghost q: nat) returns (conflict: bool)
      requires k < |wbin| && p in db.bin && wbin == db.bin[p]
      requires BinaryLoop(tr, db, |tr.assigns|, problem, p, q, wbin[..k])
      modifies this`tr
      ensures Extends(old(tr), tr)
      ensures BinaryLoop(tr, db, |tr.assigns|, problem, p, q, wbin[..if conflict then k else k + 1])
      ensures conflict ==> Conflicting(tr, db.ca, wbin[k].cref) && QueueAfter(tr, db.ca, wbin[k].cref, q + 1)
    {
      hide BinaryLoop, Extends, Conflicting, Current, QueueAfter;
      var imp := wbin[k].blocker;
      BinaryNext(tr, db, |tr.assigns|, problem, p, q, k);
      ExtendsReflexive(tr);
      if Val(imp) == LFalse {
        BinaryConflict(tr, db.ca, p, q, imp, wbin[k].cref);
        MetAtFirst(tr, db, |tr.assigns|, problem, p, q, wbin[..k], imp, wbin[k].cref);
        return true;
      }
      if Val(imp) == LUndef {
        BinaryPush(tr, db, |tr.assigns|, problem, p, q, wbin[..k], imp, wbin[k].cref);
        UncheckedEnqueue(imp, Some(wbin[k].cref));
      }
      BinaryKeep(tr, db, |tr.assigns|, problem, p, q, wbin, k);
      return false;
    }

    /** Binary clauses first: every clause in the list of p forces its blocker. */
    method PropagateBinary(p: Lit, ghost q: nat) returns (confl: Option<nat>)
      requires p in db.bin && BinaryLoop(tr, db, |tr.assigns|, problem, p, q, [])
      modifies this`tr
      ensures Extends(old(tr), tr)
      ensures confl.None? ==> BinaryLoop(tr, db, |tr.assigns|, problem, p, q, db.bin[p])
      ensures confl.Some? ==> Conflicting(tr, db.ca, confl.value) && QueueAfter(tr, db.ca, confl.value, q + 1)
      ensures confl.Some? ==> BaseOk(tr, db, |tr.assigns|, problem) && PropOk(tr, db, q)
    {
      var wbin := db.bin[p];
      assert wbin[..0] == [];
      hide BaseOk, PropOk, SettledList, Extends, Conflicting, QueueAfter;
      ExtendsReflexive(tr);
      for k := 0 to |wbin|
        invariant BinaryLoop(tr, db, |tr.assigns|, problem, p, q, wbin[..k]) && Extends(old(tr), tr)
      {
        ghost var t := tr;
        var conflict := VisitBinary(p, wbin, k, q);
        ExtendsTransitive(old(tr), t, tr);
        if conflict {
          return Some(wbin[k].cref);
        }
      }
      assert wbin[..|wbin|] == wbin;
      return None;
    }

    /** The first position from 2 on whose literal is not false, or the length of the clause. */
    method FindNewWatch(c: seq<Lit>) returns (k: nat)
      requires |c| >= 2 && forall i :: 0 <= i < |c| ==> c[i].v < |tr.assigns|
      ensures 2 <= k <= |c|
      ensures k < |c| ==> !tr.IsFalse(c[k])
      ensures forall i :: 2 <= i < k ==> tr.IsFalse(c[i])
    {
      k := 2;
      while k < |c|
        invariant 2 <= k <= |c|
        invariant forall i :: 2 <= i < k ==> tr.IsFalse(c[i])
      {
        if Val(c[k]) != LFalse {
          return;
        }
        k := k + 1;
      }
    }

    /** A clause of more than two literals ends the propagation with an empty queue. */
    ghost predicate LeavesNone(cr: nat)
      reads this`tr, this`db, this`qhead
    {
      cr in db.ca && |db.ca[cr].lits| > 2 && qhead == |tr.lits|
    }

    /** Visits the watcher at index i of the list of p. */
    method VisitLong(p: Lit, i: nat, j: nat, ghost q: nat) returns (j': nat, confl: Option<nat>)
      requires p in db.long && i < |db.long[p]| && LongAt(tr, db, problem, p, q, i, j)
      modifies this`db, this`qhead, this`tr
      ensures Extends(old(tr), tr)
      ensures p in db.long && |db.long[p]| == |old(db.long[p])|
      ensures confl.None? ==> LongAt(tr, db, problem, p, q, i + 1, j') && qhead == old(qhead)
      ensures confl.Some? ==> Conflicting(tr, db.ca, confl.value) && LeavesNone(confl.value)
      ensures confl.Some? ==> Between(tr, db, problem, p, q, |db.long[p]|, j')
    {
      hide LongAt, Between, Conflicting, Extends;
      ClauseAt(tr, db, problem, p, q, i, j);
      ExtendsReflexive(tr);
      var w := db.long[p][i];
      if Val(w.blocker) == LTrue {
        KeepAt(tr, db, problem, p, q, i, j, w.blocker);
        db := db.(long := Written(db.long, p, j, w));
        return j + 1, None;
      }
      if db.ca[w.cref].lits[0] == p.Neg() {
        SwapAt(tr, db, problem, p, q, i, j);
        db := db.(ca := SwapWatches(db.ca, w.cref));
        ClauseAt(tr, db, problem, p, q, i, j);
      }
      j', confl := VisitFalse(p, i, j, q);
    }

    /** The blocker is not true and the false literal is at position 1. */
    method VisitFalse(p: Lit, i: nat, j: nat, ghost q: nat) returns (j': nat, confl: Option<nat>)
      requires p in db.long && i < |db.long[p]| && LongAt(tr, db, problem, p, q, i, j)
      requires LongClause(db.ca, |tr.assigns|, p, db.long[p][i]) && db.ca[db.long[p][i].cref].lits[1] == p.Neg()
      requires !tr.IsTrue(db.long[p][i].blocker)
      modifies this`db, this`qhead, this`tr
      ensures Extends(old(tr), tr)
      ensures p in db.long && |db.long[p]| == |old(db.long[p])|
      ensures confl.None? ==> LongAt(tr, db, problem, p, q, i + 1, j') && qhead == old(qhead)
      ensures confl.Some? ==> Conflicting(tr, db.ca, confl.value) && LeavesNone(confl.value)
      ensures confl.Some? ==> Between(tr, db, problem, p, q, |db.long[p]|, j')
    {
      hide LongAt, Between, Conflicting, Extends;
      ClauseAt(tr, db, problem, p, q, i, j);
      ExtendsReflexive(tr);
      var w := db.long[p][i];
      var c := db.ca[w.cref].lits;
      var first := c[0];
      assert first in c && first.v != c[1].v;
      if first != w.blocker && Val(first) == LTrue {
        KeepAt(tr, db, problem, p, q, i, j, first);
        db := db.(long := Written(db.long, p, j, Watcher(w.cref, first)));
        return j + 1, None;
      }
      var k := FindNewWatch(c);
      if k < |c| {
        MoveAt(tr, db, problem, p, q, i, j, k);
        db := Rewatch(db, w, k);
        return j, None;
      }
      if Val(first) == LFalse {
        ConflictAt(tr, db, problem, p, q, i, j);
        db := db.(long := Written(db.long, p, j, Watcher(w.cref, first)));
        qhead := |tr.lits|;
        j' := CopyRest(p, i + 1, j + 1, q);
        return j', Some(w.cref);
      }
      UnitAt(tr, db, problem, p, q, i, j);
      UncheckedEnqueue(first, Some(w.cref));
      KeepAt(tr, db, problem, p, q, i, j, first);
      db := db.(long := Written(db.long, p, j, Watcher(w.cref, first)));
      return j + 1, None;
    }

    /** Copies the watchers from index i on to index j. */
    method CopyRest(p: Lit, start: nat, to: nat, ghost q: nat) returns (j: nat)
      requires p in db.long && to <= start <= |db.long[p]| && Between(tr, db, problem, p, q, start, to)
      modifies this`db
      ensures p in db.long && |db.long[p]| == |old(db.long[p])| && db.ca == old(db.ca)
      ensures Between(tr, db, problem, p, q, |db.long[p]|, j)
    {
      hide BaseOk, PropOk;
      var i := start;
      j := to;
      while i < |db.long[p]|
        invariant p in db.long && |db.long[p]| == |old(db.long[p])| && db.ca == old(db.ca)
        invariant i <= |db.long[p]| && Between(tr, db, problem, p, q, i, j)
        decreases |db.long[p]| - i
      {
        CompactCopy(db.long, p, i, j);
        db := db.(long := Written(db.long, p, j, db.long[p][i]));
        i, j := i + 1, j + 1;
      }
    }

    /** The long watchers of p, with in-place compaction of its list. */
    method PropagateLong(p: Lit, ghost q: nat) returns (confl: Option<nat>)
      requires p in db.long && LongAt(tr, db, problem, p, q, 0, 0)
      modifies this`db, this`qhead, this`tr
      ensures Extends(old(tr), tr) && p in db.long
      ensures confl.None? ==> LongLoop(tr, db, |tr.assigns|, problem, p, q, db.long[p], []) && qhead == old(qhead)
      ensures confl.Some? ==> Conflicting(tr, db.ca, confl.value) && LeavesNone(confl.value)
      ensures confl.Some? ==> BaseOk(tr, db, |tr.assigns|, problem) && PropOk(tr, db, q)
    {
      hide LongAt, Between, LongLoop, BaseOk, PropOk, Conflicting, Extends;
      ClauseAt(tr, db, problem, p, q, 0, 0);
      ExtendsReflexive(tr);
      var i, j: nat := 0, 0;
      confl := None;
      while i < |db.long[p]| && confl.None?
        invariant p in db.long && |db.long[p]| == |old(db.long[p])| && Extends(old(tr), tr)
        invariant i <= |db.long[p]|
        invariant confl.None? ==> LongAt(tr, db, problem, p, q, i, j) && qhead == old(qhead)
        invariant confl.Some? ==> Conflicting(tr, db.ca, confl.value) && LeavesNone(confl.value)
        invariant confl.Some? ==> Between(tr, db, problem, p, q, |db.long[p]|, j)
        decreases |db.long[p]| - i
      {
        ghost var t := tr;
        j, confl := VisitLong(p, i, j, q);
        ExtendsTransitive(old(tr), t, tr);
        i := i + 1;
      }
      if confl.None? {
        ShrunkSettled(tr, db, problem, p, q, j);
      } else {
        ShrunkOk(tr, db, problem, p, q, j);
      }
      db := db.(long := db.long[p := db.long[p][..j]]);
    }

    // ---------- one-watched clauses ----------

    /** The first position from 1 on whose literal is not false, or the length of the clause. */
    method FindOther(c: seq<Lit>) returns (k: nat)
      requires |c| >= 1 && forall i :: 0 <= i < |c| ==> c[i].v < |tr.assigns|
      ensures 1 <= k <= |c| && (k < |c| ==> !tr.IsFalse(c[k]))
      ensures forall i :: 1 <= i < k ==> tr.IsFalse(c[i])
    {
      k := 1;
      while k < |c|
        invariant 1 <= k <= |c|
        invariant forall i :: 1 <= i < k ==> tr.IsFalse(c[i])
      {
        if Val(c[k]) != LFalse {
          return;
        }
        k := k + 1;
      }
    }

    /** Visits the one-watched clause at index i of the list of p. */
    method VisitUnary(p: Lit, i: nat, j: nat, ghost q: nat) returns (j': nat, confl: Option<nat>)
      requires p in db.unary && i < |db.unary[p]| && UnaryAt(tr, db, problem, p, q, i, j)
      modifies this`db, this`qhead
      ensures p in db.unary && |db.unary[p]| == |old(db.unary[p])|
      ensures confl.None? ==> UnaryAt(tr, db, problem, p, q, i + 1, j') && qhead == old(qhead)
      ensures confl.Some? ==> Conflicting(tr, db.ca, confl.value) && LeavesNone(confl.value)
      ensures confl.Some? ==> FalsifiedUnary(db.ca, confl.value, p)
      ensures confl.Some? ==> UnaryBetween(tr, db, problem, |db.unary[p]|, j', p, q)
      ensures confl.Some? <==> FalseAt(tr, old(db).ca, old(db).unary[p][i])
      ensures confl.None? ==> WellWatched(tr, db.ca, old(db).unary[p][i].cref)
      ensures confl.None? ==> forall l :: i < l < |db.unary[p]| ==> db.unary[p][l] == old(db).unary[p][l]
      ensures confl.None? ==> forall x :: x in old(db).ca && x != old(db).unary[p][i].cref ==> x in db.ca && db.ca[x] == old(db).ca[x]
    {
      hide UnaryAt, UnaryBetween, Conflicting;
      UnaryClauseAt(tr, db, problem, p, q, i, j);
      var w := db.unary[p][i];
      var c := db.ca[w.cref].lits;
      if Val(w.blocker) == LTrue {
        KeepUnary(tr, db, problem, p, q, i, j);
        db := db.(unary := Written(db.unary, p, j, w));
        return j + 1, None;
      }
      var k := FindOther(c);
      if k < |c| {
        MoveUnary(tr, db, problem, p, q, i, j, k);
        db := MovedOnce(db, w, k);
        return j, None;
      }
      UnaryConflict(tr, db.ca, p, q, w, |tr.assigns|);
      ConflictUnary(tr, db, problem, p, q, i, j);
      db := db.(unary := Written(db.unary, p, j, Watcher(w.cref, c[0])));
      qhead := |tr.lits|;
      j' := CopyUnaryRest(p, i + 1, j + 1, q);
      return j', Some(w.cref);
    }

    method CopyUnaryRest(p: Lit, start: nat, to: nat, ghost q: nat) returns (j: nat)
      requires p in db.unary && UnaryBetween(tr, db, problem, start, to, p, q)
      modifies this`db
      ensures p in db.unary && |db.unary[p]| == |old(db.unary[p])| && db.ca == old(db.ca)
      ensures UnaryBetween(tr, db, problem, |db.unary[p]|, j, p, q)
    {
      hide BaseOk, PropOk;
      var i := start;
      j := to;
      while i < |db.unary[p]|
        invariant p in db.unary && |db.unary[p]| == |old(db.unary[p])| && db.ca == old(db.ca)
        invariant UnaryBetween(tr, db, problem, i, j, p, q)
        decreases |db.unary[p]| - i
      {
        CopyUnary(tr, db, problem, i, j, p, q);
        db := db.(unary := Written(db.unary, p, j, db.unary[p][i]));
        i, j := i + 1, j + 1;
      }
    }

    /** The one-watched clauses of p: they never force a literal, they can only be falsified. */
    method PropagateUnaryWatches(p: Lit, ghost q: nat) returns (confl: Option<nat>)
      requires p in db.unary && UnaryAt(tr, db, problem, p, q, 0, 0)
      modifies this`db, this`qhead
      ensures BaseOk(tr, db, |tr.assigns|, problem) && AllButOnce(tr, db, q)
      ensures confl.None? ==> PropOk(tr, db, q + 1) && qhead == old(qhead)
      ensures confl.Some? ==> Conflicting(tr, db.ca, confl.value) && LeavesNone(confl.value)
      ensures confl.Some? <==> SomeFalse(tr, old(db).ca, old(db).unary[p])
      ensures confl.Some? ==> confl.value in db.ca && (db.ca[confl.value].oneWatched <==> !promoteOneWatchedClause)
      ensures confl.None? ==> forall l :: 0 <= l < |old(db).unary[p]| ==> WellWatched(tr, db.ca, old(db).unary[p][l].cref)
    {
      hide UnaryAt, UnaryBetween, BaseOk, PropOk, AllButOnce, Conflicting, Visited, SomeFalse, FalseAt, WellWatched;
      var i, j: nat := 0, 0;
      confl := None;
      ghost var ca0, ws0 := db.ca, db.unary[p];
      UnaryClauseAt(tr, db, problem, p, q, 0, 0);
      NoneVisited(tr, db, problem, p, q);
      while i < |db.unary[p]| && confl.None?
        invariant p in db.unary && |db.unary[p]| == |old(db.unary[p])| && i <= |db.unary[p]|
        invariant confl.None? ==> UnaryAt(tr, db, problem, p, q, i, j) && qhead == old(qhead)
        invariant confl.Some? ==> Conflicting(tr, db.ca, confl.value) && LeavesNone(confl.value)
        invariant confl.Some? ==> FalsifiedUnary(db.ca, confl.value, p)
        invariant confl.Some? ==> UnaryBetween(tr, db, problem, |db.unary[p]|, j, p, q) && SomeFalse(tr, ca0, ws0)
        invariant confl.None? ==> Visited(tr, ca0, db.ca, ws0, db.unary[p], i)
        decreases |db.unary[p]| - i
      {
        ghost var db1 := db;
        SameLength(tr, ca0, db.ca, ws0, db.unary[p], i);
        j, confl := VisitUnary(p, i, j, q);
        if confl.None? {
          OneMoreVisited(tr, ca0, db1.ca, db.ca, ws0, db1.unary[p], db.unary[p], i);
        } else {
          FalseFound(tr, ca0, db1.ca, ws0, db1.unary[p], i);
        }
        i := i + 1;
      }
      if confl.None? {
        SameLength(tr, ca0, db.ca, ws0, db.unary[p], i);
        AllVisited(tr, ca0, db.ca, ws0, db.unary[p]);
        UnaryDone(tr, db, problem, p, q, j);
        UnaryLoopEnd(tr, db, problem, p, q, j);
      }
      ShrunkUnary(tr, db, problem, j, p, q);
      db := db.(unary := db.unary[p := db.unary[p][..j]]);
      if confl.Some? && promoteOneWatchedClause {
        Promote(p, confl.value, q);
      }
    }

    /** Index of the first literal of maximal level among the literals after the first. */
    method HighestOther(c: seq<Lit>) returns (index: nat)
      requires |c| >= 2 && tr.Sized(|tr.assigns|) && forall i :: 0 <= i < |c| ==> c[i].v < |tr.assigns|
      ensures 1 <= index < |c|
      ensures forall i :: 1 <= i < |c| ==> tr.level[c[i].v] <= tr.level[c[index].v]
      ensures forall i :: 1 <= i < index ==> tr.level[c[i].v] < tr.level[c[index].v]
    {
      index := 1;
      for k := 2 to |c|
        invariant 1 <= index < |c|
        invariant forall i :: 1 <= i < k ==> tr.level[c[i].v] <= tr.level[c[index].v]
        invariant forall i :: 1 <= i < index ==> tr.level[c[i].v] < tr.level[c[index].v]
      {
        if tr.level[c[k].v] > tr.level[c[index].v] {
          index := k;
        }
      }
    }

    /** Turns a falsified one-watched clause into a two-watched one. */
    method Promote(p: Lit, cr: nat, ghost q: nat)
      requires BaseOk(tr, db, |tr.assigns|, problem) && AllButOnce(tr, db, q) && Current(tr, p, q)
      requires Conflicting(tr, db.ca, cr) && FalsifiedUnary(db.ca, cr, p)
      modifies this`db
      ensures BaseOk(tr, db, |tr.assigns|, problem) && AllButOnce(tr, db, q) && Conflicting(tr, db.ca, cr)
      ensures cr in old(db).ca && cr in db.ca && |db.ca[cr].lits| == |old(db).ca[cr].lits| && !db.ca[cr].oneWatched
    {
      hide BaseOk, AllButOnce, Conflicting, Current;
      UnaryListed(tr, db, |tr.assigns|, problem, p, cr);
      var k := FindRef(db.unary[p], cr);
      WatcherAtIndex(tr, db, |tr.assigns|, problem, p, k);
      SizedBase(tr, db, |tr.assigns|, problem);
      var index := HighestOther(db.ca[cr].lits);
      PromotedOk(tr, db, problem, p, k, index, q);
      StillConflicting(tr, db.ca, cr, db.ca[cr].(lits := Swapped(db.ca[cr].lits, 1, index), oneWatched := false), 1, index);
      db := Promoted(db, p, k, index);
    }

    /** Drops the watchers of deleted clauses from all smudged lists. */
    method CleanAll()
      requires Inv(tr, db, dirt, problem, qhead)
      modifies this`db, this`dirt
      ensures Inv(tr, db, dirt, problem, qhead) && BaseOk(tr, db, |tr.assigns|, problem)
      ensures dirt == Dirt([], [], []) && db.ca == old(db.ca)
    {
      hide Inv, BaseOk, SchemeOk, Clean;
      SchemesOk(tr, db, dirt, problem, qhead);
      var long := CleanAllLists(db.ca, db.long, dirt.long, Long, |tr.assigns|, tr, qhead);
      var bin := CleanAllLists(db.ca, db.bin, dirt.bin, Binary, |tr.assigns|, tr, qhead);
      var unary := CleanAllLists(db.ca, db.unary, dirt.unary, Unary, |tr.assigns|, tr, qhead);
      CleanedInv(tr, db, dirt, problem, qhead, long, bin, unary);
      db := db.(long := long, bin := bin, unary := unary);
      dirt := Dirt([], [], []);
    }

    /** Propagates the next literal of the queue through its three lists. */
    method PropagateNext() returns (confl: Option<nat>)
      requires BaseOk(tr, db, |tr.assigns|, problem) && PropOk(tr, db, qhead) && Top(tr) <= qhead < |tr.lits|
      modifies this`tr, this`db, this`qhead
      ensures Extends(old(tr), tr) && BaseOk(tr, db, |tr.assigns|, problem)
      ensures confl.None? ==> PropOk(tr, db, qhead) && qhead == old(qhead) + 1
      ensures confl.Some? ==> PropOk(tr, db, old(qhead)) && Conflicting(tr, db.ca, confl.value)
      ensures confl.Some? ==> QueueAfter(tr, db.ca, confl.value, qhead)
    {
      hide BaseOk, PropOk, Conflicting, BinaryLoop, LongAt, LongLoop, UnaryAt, Extends, MetAt;
      ghost var q := qhead;
      StartLiteral(tr, db, problem, q);
      var p := tr.lits[qhead];
      qhead := qhead + 1;
      confl := PropagateBinary(p, q);
      ExtendsTop(old(tr), tr);
      if confl.Some? {
        return;
      }
      StartLong(tr, db, problem, p, q);
      ghost var t := tr;
      confl := PropagateLong(p, q);
      ExtendsTransitive(old(tr), t, tr);
      if confl.Some? {
        return;
      }
      FinishLong(tr, db, problem, p, q);
      confl := PropagateUnaryWatches(p, q);
      if confl.Some? {
        WeakenOnce(tr, db, q);
      }
    }

    /** Propagates everything enqueued. Without a conflict the queue is empty and no clause is
        falsified or unit; a conflict clause is falsified and touches the current level. */
    method Propagate() returns (confl: Option<nat>)
      requires Inv(tr, db, dirt, problem, qhead)
      modifies this`tr, this`db, this`dirt, this`qhead
      ensures Extends(old(tr), tr) && dirt == Dirt([], [], []) && qhead <= |tr.lits|
      ensures confl.Some? ==> QueueAfter(tr, db.ca, confl.value, qhead)
      ensures confl.Some? && !db.ca[confl.value].imported ==> (qhead == |tr.lits| <==> |db.ca[confl.value].lits| > 2)
      ensures confl.None? ==> qhead == |tr.lits| && Inv(tr, db, dirt, problem, qhead)
      ensures confl.None? ==> AllStable(tr, db.ca) && NoneMissed(tr, db.ca)
      ensures old(qhead) == |old(tr).lits| ==> confl.None? && tr == old(tr)
      ensures confl.Some? ==> Inv(tr, db, dirt, problem, Top(tr)) && Conflicting(tr, db.ca, confl.value)
    {
      hide Inv, BaseOk, PropOk, Conflicting, Extends, AllStable, QueueAfter;
      InvBounds(tr, db, dirt, problem, qhead);
      CleanAll();
      ghost var t0 := tr;
      SizedBase(tr, db, |tr.assigns|, problem);
      ExtendsReflexive(tr);
      InvBounds(tr, db, dirt, problem, qhead);
      confl := None;
      while qhead < |tr.lits| && confl.None?
        invariant Extends(t0, tr) && BaseOk(tr, db, |tr.assigns|, problem)
        invariant Top(tr) == Top(t0) <= |tr.lits| && qhead <= |tr.lits| && dirt == Dirt([], [], [])
        invariant confl.None? ==> PropOk(tr, db, qhead) && Top(tr) <= qhead
        invariant confl.Some? ==> PropOk(tr, db, Top(tr)) && Conflicting(tr, db.ca, confl.value)
        invariant confl.Some? ==> QueueAfter(tr, db.ca, confl.value, qhead)
        invariant old(qhead) == |old(tr).lits| ==> confl.None? && tr == old(tr) && qhead == |tr.lits|
        decreases confl.None?, |tr.assigns| - qhead
      {
        confl := PropagateStep(t0);
      }
      InvFromBase(tr, db, problem, if confl.None? then qhead else Top(tr));
      if confl.None? {
        QueueEmpty(tr, db, dirt, problem);
      } else {
        QueueAfterOwn(tr, db, |tr.assigns|, problem, confl.value, qhead);
      }
    }

    /** One round of the propagation loop. */
    method PropagateStep(ghost t0: Trail) returns (confl: Option<nat>)
      requires BaseOk(tr, db, |tr.assigns|, problem) && PropOk(tr, db, qhead) && Top(tr) <= qhead < |tr.lits|
      requires Extends(t0, tr) && Top(tr) == Top(t0)
      modifies this`tr, this`db, this`qhead
      ensures Extends(t0, tr) && BaseOk(tr, db, |tr.assigns|, problem) && Top(tr) == Top(t0)
      ensures qhead <= |tr.lits| <= |tr.assigns| == |old(tr).assigns| && Top(tr) <= |tr.lits|
      ensures confl.None? ==> PropOk(tr, db, qhead) && Top(tr) <= qhead == old(qhead) + 1
      ensures confl.Some? ==> PropOk(tr, db, Top(tr)) && Conflicting(tr, db.ca, confl.value)
      ensures confl.Some? ==> QueueAfter(tr, db.ca, confl.value, qhead)
    {
      hide BaseOk, PropOk, Conflicting, Extends;
      ghost var t := tr;
      confl := PropagateNext();
      ExtendsTransitive(t0, t, tr);
      ExtendsTop(t, tr);
      SizedBase(tr, db, |tr.assigns|, problem);
      TrailFits(tr, |tr.assigns|);
      if confl.Some? {
        Weaken(tr, db, old(qhead), Top(tr));
      }
    }

    // ---------- conflict analysis ----------

    /** varBumpActivity; the rescaling against overflow may happen or not. */
    method BumpVar(v: nat)
      requires order.Valid() && v < |order.activity| && varInc >= 0.0
      modifies order, this`varInc
      ensures order.Valid() && |order.activity| == old(|order.activity|) && varInc >= 0.0
      ensures SameMembers(old(order.indices), order.indices)
    {
      order.Bump(v, varInc);
      if * {
        order.Rescale(0.5);
        varInc := varInc * 0.5;
      }
    }

    ghost predicate OrderReady()
      reads this`tr, this`varInc, order
    {
      order.Valid() && |order.activity| == |tr.assigns| && varInc >= 0.0
    }

    /** Marks the literals of c that are above level 0 and not marked yet: those of the current
        level are counted, the others collected. */
    method MarkClause(c: seq<Lit>, from: nat, out0: seq<Lit>, pathC0: nat, ghost pending0: set<nat>, ghost index: int)
      returns (out: seq<Lit>, pathC: nat, ghost pending: set<nat>)
      requires OrderReady() && Marks(tr, |tr.assigns|, seen, pending0, out0, index) && |pending0| == pathC0
      requires Readable(tr, c, from, index) && from <= |c|
      modifies this`seen, this`varInc, order
      ensures OrderReady() && Marks(tr, |tr.assigns|, seen, pending, out, index) && |pending| == pathC
      ensures pending0 <= pending && VarsOf(out0) <= VarsOf(out) && Covered(tr, c, from, |c|, pending, out)
      ensures pending + VarsOf(out) <= pending0 + VarsOf(out0) + UpperVars(tr, c[from..])
      ensures SameMembers(old(order.indices), order.indices)
    {
      hide Marks, Covered, SameMembers, VarsOf, UpperVars;
      MarksSized(tr, |tr.assigns|, seen, pending0, out0, index);
      out, pathC, pending := out0, pathC0, pending0;
      NothingCovered(tr, c, from, pending, out);
      SameMembersReflexive(order.indices);
      for j := from to |c|
        invariant OrderReady() && Marks(tr, |tr.assigns|, seen, pending, out, index) && |pending| == pathC
        invariant pending0 <= pending && VarsOf(out0) <= VarsOf(out) && Covered(tr, c, from, j, pending, out)
        invariant pending + VarsOf(out) <= pending0 + VarsOf(out0) + UpperVars(tr, c[from..])
        invariant SameMembers(old(order.indices), order.indices)
      {
        ghost var before := order.indices;
        out, pathC, pending := MarkLiteral(c, from, j, out, pathC, pending, index);
        SameMembersTransitive(old(order.indices), before, order.indices);
      }
    }

    method MarkLiteral(c: seq<Lit>, ghost from: nat, j: nat, out0: seq<Lit>, pathC0: nat, ghost pending0: set<nat>, ghost index: int)
      returns (out: seq<Lit>, pathC: nat, ghost pending: set<nat>)
      requires OrderReady() && Marks(tr, |tr.assigns|, seen, pending0, out0, index) && |pending0| == pathC0
      requires from <= j < |c| && Readable(tr, c, from, index) && tr.Sized(|tr.assigns|)
      requires Covered(tr, c, from, j, pending0, out0)
      modifies this`seen, this`varInc, order
      ensures OrderReady() && Marks(tr, |tr.assigns|, seen, pending, out, index) && |pending| == pathC
      ensures pending0 <= pending && VarsOf(out0) <= VarsOf(out) && Covered(tr, c, from, j + 1, pending, out)
      ensures pending + VarsOf(out) <= pending0 + VarsOf(out0) + UpperVars(tr, c[from..])
      ensures SameMembers(old(order.indices), order.indices)
    {
      hide Marks, Covered, VarsOf, UpperVars;
      MarksSized(tr, |tr.assigns|, seen, pending0, out0, index);
      out, pathC, pending := out0, pathC0, pending0;
      var q := c[j];
      if !seen[q.v] {
        if tr.level[q.v] > 0 {
          OnlyRead(tr, c, from, j);
          BumpVar(q.v);
          if tr.level[q.v] >= |tr.lim| {
            MarkTop(tr, |tr.assigns|, seen, pending, out, index, q);
            pathC, pending := pathC + 1, pending + {q.v};
          } else {
            MarkLower(tr, |tr.assigns|, seen, pending, out, index, q);
            out := out + [q];
          }
          seen := seen[q.v := true];
        }
      } else {
        MarkedAlready(tr, |tr.assigns|, seen, pending, out, index, q.v);
      }
      CoveredMore(tr, c, from, j, pending0, out0, pending, out);
    }

    /** Walks down the trail to the next marked literal. */
    method NextSeen(start: int, ghost out: seq<Lit>, ghost pending: set<nat>) returns (index: int)
      requires Marks(tr, |tr.assigns|, seen, pending, out, start) && pending != {}
      ensures 0 <= index <= start && index < |tr.lits| && Marks(tr, |tr.assigns|, seen, pending, out, index)
      ensures tr.lits[index].v in pending && tr.lits[index].v < |tr.pos| && tr.pos[tr.lits[index].v] == index
      ensures start < |tr.lits| && forall j :: index < j <= start ==> tr.lits[j].v < |seen| && !seen[tr.lits[j].v]
    {
      hide Marks;
      index := start;
      ScanStops(tr, |tr.assigns|, seen, pending, out, index);
      MarksSized(tr, |tr.assigns|, seen, pending, out, index);
      while !seen[tr.lits[index].v]
        invariant Marks(tr, |tr.assigns|, seen, pending, out, index) && 0 <= index <= start < |tr.lits|
        invariant forall j :: index < j <= start ==> tr.lits[j].v < |seen| && !seen[tr.lits[j].v]
        invariant tr.lits[index].v < |tr.assigns| == |seen|
        invariant seen[tr.lits[index].v] ==> tr.lits[index].v in pending && tr.pos[tr.lits[index].v] == index
        invariant tr.Sized(|tr.assigns|)
        decreases index
      {
        ScanStops(tr, |tr.assigns|, seen, pending, out, index);
        index := index - 1;
        ScanStops(tr, |tr.assigns|, seen, pending, out, index);
        MarksSized(tr, |tr.assigns|, seen, pending, out, index);
      }
    }

    /** Turns a binary reason so that the literal it propagated comes first. */
    method OrientReason(p: Option<Lit>, cr: nat, ghost pending: set<nat>, ghost out: seq<Lit>, ghost index: int)
      requires BaseOk(tr, db, |tr.assigns|, problem) && PropOk(tr, db, Top(tr)) && tr.Sized(|tr.assigns|)
      requires Resolvable(tr, db, p, cr, pending, out, index, problem)
      modifies this`db
      ensures BaseOk(tr, db, |tr.assigns|, problem) && PropOk(tr, db, Top(tr))
      ensures Resolvable(tr, db, p, cr, pending, out, index, problem)
      ensures Reading(tr, db.ca, |tr.assigns|, p, cr, index)
    {
      hide BaseOk, PropOk, Resolvable, Reading;
      ResolvableLive(tr, db, p, cr, pending, out, index, problem);
      ClauseKnown(tr, db, |tr.assigns|, problem, cr);
      var c := db.ca[cr].lits;
      if p.Some? && |c| == 2 && Val(c[0]) == LFalse {
        Oriented(tr, db, |tr.assigns|, problem, p, cr, pending, out, index, Top(tr));
        db := db.(ca := SwapWatches(db.ca, cr));
        PropagatedIsTrue(tr, db, p, cr, pending, out, index, problem);
      }
      StartReading(tr, db, |tr.assigns|, problem, p, cr, pending, out, index);
    }

    /** Orients and marks the next clause; afterwards only marked variables are in the cut. */
    method ResolveWith(p: Option<Lit>, cr: nat, out0: seq<Lit>, pathC0: nat, ghost pending0: set<nat>, ghost index: int)
      returns (out: seq<Lit>, pathC: nat, ghost pending: set<nat>)
      requires BaseOk(tr, db, |tr.assigns|, problem) && PropOk(tr, db, Top(tr)) && OrderReady()
      requires Marks(tr, |tr.assigns|, seen, pending0, out0, index) && |pending0| == pathC0
      requires tr.Sized(|tr.assigns|) && Resolvable(tr, db, p, cr, pending0, out0, index, problem)
      requires p.Some? ==> pending0 != {}
      modifies this`db, this`seen, this`varInc, order
      ensures BaseOk(tr, db, |tr.assigns|, problem) && PropOk(tr, db, Top(tr)) && OrderReady()
      ensures Marks(tr, |tr.assigns|, seen, pending, out, index) && |pending| == pathC && pending != {}
      ensures Cut(problem, tr, pending + VarsOf(out))
      ensures pending + VarsOf(out) == pending0 + VarsOf(out0) + Adds(tr, problem, p, cr)
      ensures SameMembers(old(order.indices), order.indices)
    {
      hide BaseOk, PropOk, Marks, SameMembers, Readable, Covered, Cut, OrderReady, Resolvable, Reading, VarsOf, Adds, SaysSame, UpperVars;
      OrientReason(p, cr, pending0, out0, index);
      ReadingShape(tr, db.ca, |tr.assigns|, p, cr, index);
      var c := db.ca[cr].lits;
      out, pathC, pending := MarkClause(c, if p.None? then 0 else 1, out0, pathC0, pending0, index);
      ResolvedCut(tr, db, |tr.assigns|, problem, p, cr, index, pending0, out0, seen, pending, out);
      StoreSays(tr, db, |tr.assigns|, problem, cr);
      ExactlyAdded(tr, problem, p, cr, c, pending0 + VarsOf(out0), pending, out);
    }

    /** Resolves backwards along the trail until a single literal of the current level is left. */
    method FirstUip(confl: nat) returns (learnt: seq<Lit>)
      requires BaseOk(tr, db, |tr.assigns|, problem) && PropOk(tr, db, Top(tr)) && OrderReady()
      requires |tr.lim| > 0 && Conflicting(tr, db.ca, confl)
      requires |seen| == |tr.assigns| && forall v :: 0 <= v < |seen| ==> !seen[v]
      modifies this`db, this`seen, this`varInc, order
      ensures BaseOk(tr, db, |tr.assigns|, problem) && PropOk(tr, db, Top(tr)) && OrderReady()
      ensures Asserting(tr, learnt) && Cut(problem, tr, VarsOf(learnt))
      ensures VarsOf(learnt) == UipVars(tr, problem, UpperIn(tr, problem, confl), |tr.lits|)
      ensures |seen| == |tr.assigns| && Marked(seen) == VarsOf(learnt[1..])
      ensures SameMembers(old(order.indices), order.indices)
    {
      hide BaseOk, PropOk, Marks, SameMembers, Resolvable, Conflicting, Asserting, Cut, UipVars, VarsOf, UpperIn, Adds, Marked, OrderReady;
      SizedBase(tr, db, |tr.assigns|, problem);
      SameMembersReflexive(order.indices);
      StartAnalysis(tr, db, |tr.assigns|, problem, confl, seen);
      var p: Option<Lit>, cr, out, pathC, index := None, confl, [], 0, |tr.lits| - 1;
      ghost var pending: set<nat> := {};
      ghost var found := UipVars(tr, problem, UpperIn(tr, problem, confl), |tr.lits|);
      StartAdds(tr, problem, cr);
      while true
        invariant -1 <= index < |tr.lits| && UipVars(tr, problem, pending + VarsOf(out) + Adds(tr, problem, p, cr), index + 1) == found
        invariant BaseOk(tr, db, |tr.assigns|, problem) && PropOk(tr, db, Top(tr)) && OrderReady()
        invariant Marks(tr, |tr.assigns|, seen, pending, out, index) && |pending| == pathC
        invariant tr.Sized(|tr.assigns|) && Resolvable(tr, db, p, cr, pending, out, index, problem)
        invariant (p.Some? ==> pending != {}) && index >= -1
        invariant SameMembers(old(order.indices), order.indices)
        decreases index
      {
        ghost var before := order.indices;
        out, pathC, pending := ResolveWith(p, cr, out, pathC, pending, index);
        SameMembersTransitive(old(order.indices), before, order.indices);
        ghost var start := index;
        index := NextSeen(index, out, pending);
        ScannedOver(tr, |tr.assigns|, problem, seen, pending, out, start, index);
        var l := tr.lits[index];
        if pathC == 1 {
          OnlyOne(pending, l.v);
          PointReached(tr, |tr.assigns|, problem, seen, pending, out, index);
          UipFound(tr, |tr.assigns|, problem, seen, pending, out, index);
          seen := seen[l.v := false];
          learnt := [l.Neg()] + out;
          assert learnt[1..] == out;
          return;
        }
        p, cr, pathC, pending, index := StepBack(l, out, pathC, pending, index);
      }
    }

    /** Takes the literal found off the pending ones and moves on to its reason. */
    method StepBack(l: Lit, out: seq<Lit>, pathC0: nat, ghost pending0: set<nat>, index0: int)
      returns (p: Option<Lit>, cr: nat, pathC: nat, ghost pending: set<nat>, index: int)
      requires BaseOk(tr, db, |tr.assigns|, problem) && 0 <= index0 < |tr.lits| && l == tr.lits[index0]
      requires Marks(tr, |tr.assigns|, seen, pending0, out, index0) && |pending0| == pathC0 > 1
      requires l.v in pending0 && l.v < |tr.pos| && tr.pos[l.v] == index0
      requires Cut(problem, tr, pending0 + VarsOf(out))
      modifies this`seen
      ensures Marks(tr, |tr.assigns|, seen, pending, out, index) && |pending| == pathC && pending != {}
      ensures index == index0 - 1 && p.Some?
      ensures tr.Sized(|tr.assigns|) && Resolvable(tr, db, p, cr, pending, out, index, problem)
      ensures UipVars(tr, problem, pending + VarsOf(out) + Adds(tr, problem, p, cr), index + 1) ==
              UipVars(tr, problem, pending0 + VarsOf(out), index0 + 1)
    {
      hide BaseOk, Marks, Resolvable, Cut, Pending, UipVars, VarsOf, Adds;
      PendingOf(tr, |tr.assigns|, seen, pending0, out, index0);
      pending := pending0 - {l.v};
      assert |pending| == pathC0 - 1 && pending != {};
      NextClause(tr, db, |tr.assigns|, problem, pending0, out, index0);
      UipStep(tr, |tr.assigns|, problem, seen, pending0, out, index0);
      Unmark(tr, |tr.assigns|, seen, pending0, out, index0);
      MarksSized(tr, |tr.assigns|, seen, pending0, out, index0);
      p, cr, pathC, index := Some(l), tr.reason[l.v].value, pathC0 - 1, index0 - 1;
      seen := seen[l.v := false];
    }

    // ---------- minimisation ----------

    /** The bit of a decision level in a mask of 32 bits; a mask is the set of its bits. */
    static function AbstractLevel(level: nat): nat {
      level % 32
    }

    /** Reads the reason of x: each literal must be marked, at level 0, or have a reason itself. */
    method ReadReason(x: Lit, cr: nat, stack0: seq<Lit>, abstractLevels: set<nat>, ghost p0: nat, ghost marked0: set<nat>,
                      ghost kept: set<nat>, ghost seen0: seq<bool>, ghost top: nat)
      returns (fine: bool, stack: seq<Lit>)
      requires top <= |analyzeToclear| && cr in db.ca
      requires Popped(tr, db.ca, |tr.assigns|, kept, seen0, seen, analyzeToclear[top..], stack0, x, cr, 1)
      requires SaysSame(problem, cr, db.ca[cr].lits) && x.v in VarsOf(analyzeToclear[top..]) + {p0}
      requires VarsOf(stack0) <= VarsOf(analyzeToclear[top..]) + {p0}
      requires Tracking(tr, problem, marked0, abstractLevels, p0, Marked(seen0), VarsOf(analyzeToclear[top..]), VarsOf(stack0) + {x.v})
      modifies this`seen, this`analyzeToclear
      ensures top <= |analyzeToclear| && analyzeToclear[..top] == old(analyzeToclear[..top])
      ensures fine ==> Popped(tr, db.ca, |tr.assigns|, kept, seen0, seen, analyzeToclear[top..], stack, x, cr, |db.ca[cr].lits|)
      ensures fine ==> Unmarked(seen) < old(Unmarked(seen)) || (Unmarked(seen) == old(Unmarked(seen)) && stack == stack0)
      ensures !fine ==> MarksSince(seen0, seen, analyzeToclear[top..])
      ensures fine ==> VarsOf(stack) <= VarsOf(analyzeToclear[top..]) + {p0}
      ensures fine ==> Tracking(tr, problem, marked0, abstractLevels, p0, Marked(seen0), VarsOf(analyzeToclear[top..]), VarsOf(stack))
      ensures !fine ==> Needed(tr, problem, marked0, abstractLevels, p0)
    {
      hide Popped, MarksSince, Tracking, Needed, SaysSame, VarsOf, Marked, Unmarked;
      fine, stack := true, stack0;
      var c := db.ca[cr].lits;
      PoppedSized(tr, db.ca, |tr.assigns|, kept, seen0, seen, analyzeToclear[top..], stack, x, cr, 1);
      var i := 1;
      while i < |c|
        invariant 1 <= i <= |c| && top <= |analyzeToclear| && analyzeToclear[..top] == old(analyzeToclear[..top])
        invariant Popped(tr, db.ca, |tr.assigns|, kept, seen0, seen, analyzeToclear[top..], stack, x, cr, i)
        invariant Unmarked(seen) < old(Unmarked(seen)) || (Unmarked(seen) == old(Unmarked(seen)) && stack == stack0)
        invariant |seen| == |tr.assigns| && x.v in VarsOf(analyzeToclear[top..]) + {p0}
        invariant VarsOf(stack) <= VarsOf(analyzeToclear[top..]) + {p0}
        invariant Tracking(tr, problem, marked0, abstractLevels, p0, Marked(seen0), VarsOf(analyzeToclear[top..]), VarsOf(stack) + {x.v})
        decreases |c| - i
      {
        fine, stack := ReadOne(x, cr, i, stack, abstractLevels, p0, marked0, kept, seen0, top);
        if !fine {
          return;
        }
        i := i + 1;
      }
      ReadClose(tr, db.ca, problem, |tr.assigns|, kept, seen0, seen, analyzeToclear[top..], stack, x, cr, marked0, abstractLevels, p0);
    }

    /** Reads the i-th literal of the reason of x. */
    method ReadOne(x: Lit, cr: nat, i: nat, stack0: seq<Lit>, abstractLevels: set<nat>, ghost p0: nat, ghost marked0: set<nat>,
                   ghost kept: set<nat>, ghost seen0: seq<bool>, ghost top: nat)
      returns (fine: bool, stack: seq<Lit>)
      requires top <= |analyzeToclear| && cr in db.ca && 1 <= i < |db.ca[cr].lits|
      requires Popped(tr, db.ca, |tr.assigns|, kept, seen0, seen, analyzeToclear[top..], stack0, x, cr, i)
      requires SaysSame(problem, cr, db.ca[cr].lits) && x.v in VarsOf(analyzeToclear[top..]) + {p0}
      requires VarsOf(stack0) <= VarsOf(analyzeToclear[top..]) + {p0}
      requires Tracking(tr, problem, marked0, abstractLevels, p0, Marked(seen0), VarsOf(analyzeToclear[top..]), VarsOf(stack0) + {x.v})
      modifies this`seen, this`analyzeToclear
      ensures top <= |analyzeToclear| && analyzeToclear[..top] == old(analyzeToclear[..top])
      ensures fine ==> Popped(tr, db.ca, |tr.assigns|, kept, seen0, seen, analyzeToclear[top..], stack, x, cr, i + 1)
      ensures fine ==> Unmarked(seen) < old(Unmarked(seen)) || (Unmarked(seen) == old(Unmarked(seen)) && stack == stack0)
      ensures fine ==> |seen| == |tr.assigns| && x.v in VarsOf(analyzeToclear[top..]) + {p0}
      ensures fine ==> VarsOf(stack) <= VarsOf(analyzeToclear[top..]) + {p0}
      ensures fine ==> Tracking(tr, problem, marked0, abstractLevels, p0, Marked(seen0), VarsOf(analyzeToclear[top..]), VarsOf(stack) + {x.v})
      ensures !fine ==> MarksSince(seen0, seen, analyzeToclear[top..]) && Needed(tr, problem, marked0, abstractLevels, p0)
    {
      hide Popped, MarksSince, Tracking, Needed, SaysSame, VarsOf, Marked;
      fine, stack := true, stack0;
      var p := db.ca[cr].lits[i];
      ghost var added := analyzeToclear[top..];
      PoppedSized(tr, db.ca, |tr.assigns|, kept, seen0, seen, added, stack, x, cr, i);
      if !seen[p.v] && tr.level[p.v] > 0 {
        UnmarkedAntecedent(tr, db.ca, problem, |tr.assigns|, kept, seen0, seen, added, stack, x, cr, i);
        if tr.reason[p.v].None? || AbstractLevel(tr.level[p.v]) !in abstractLevels {
          TrackStops(tr, problem, marked0, abstractLevels, p0, Marked(seen0), VarsOf(added), VarsOf(stack) + {x.v}, x.v, p.v);
          return false, stack;
        }
        ReasonLitAssigned(tr, db.ca, |tr.assigns|, kept, seen0, seen, added, stack, x, cr, i);
        ReadPush(tr, db.ca, |tr.assigns|, kept, seen0, seen, added, stack, x, cr, i);
        TrackPush(tr, problem, marked0, abstractLevels, p0, Marked(seen0), VarsOf(added), VarsOf(stack) + {x.v}, x.v, p.v);
        PushedVars(added, stack, p, x.v);
        OneLessUnmarked(seen, p.v);
        assert (analyzeToclear + [p])[top..] == added + [p];
        seen, stack, analyzeToclear := seen[p.v := true], stack + [p], analyzeToclear + [p];
      } else {
        ReadMarked(tr, db.ca, |tr.assigns|, kept, seen0, seen, added, stack, x, cr, i);
      }
    }

    /** Takes back the marks recorded from position top of the list on. */
    method UndoMarks(top: nat, ghost seen0: seq<bool>)
      requires top <= |analyzeToclear| && MarksSince(seen0, seen, analyzeToclear[top..])
      modifies this`seen, this`analyzeToclear
      ensures seen == seen0 && analyzeToclear == old(analyzeToclear[..top])
    {
      MarksSinceBut(seen0, seen, analyzeToclear[top..]);
      var j := top;
      while j < |analyzeToclear|
        invariant analyzeToclear == old(analyzeToclear)
        invariant top <= j <= |analyzeToclear| && MarksBut(seen0, seen, analyzeToclear[j..])
      {
        UndoStep(seen0, seen, analyzeToclear[j..]);
        assert analyzeToclear[j..][1..] == analyzeToclear[j + 1..];
        seen := seen[analyzeToclear[j].v := false];
        j := j + 1;
      }
      assert analyzeToclear[j..] == [];
      Undone(seen0, seen);
      analyzeToclear := analyzeToclear[..top];
    }

    /** Pops the top of the stack and turns its reason around if needed. */
    method PopAndOrient(stack: seq<Lit>, ghost kept0: set<nat>, ghost kept: set<nat>, ghost seen0: seq<bool>, ghost added: seq<Lit>)
      returns (x: Lit, cr: nat)
      requires BaseOk(tr, db, |tr.assigns|, problem) && PropOk(tr, db, Top(tr)) && stack != []
      requires Checking(tr, db.ca, |tr.assigns|, kept, seen0, seen, added, stack)
      requires tr.Sized(|tr.assigns|) && Closed(tr, db.ca, kept0, Marked(seen0))
      modifies this`db
      ensures BaseOk(tr, db, |tr.assigns|, problem) && PropOk(tr, db, Top(tr))
      ensures cr in db.ca && x == stack[|stack| - 1] && Closed(tr, db.ca, kept0, Marked(seen0))
      ensures Popped(tr, db.ca, |tr.assigns|, kept, seen0, seen, added, stack[..|stack| - 1], x, cr, 1)
    {
      hide BaseOk, PropOk, Checking, Closed, Popped;
      TopOfStack(tr, db, |tr.assigns|, problem, kept, seen0, seen, added, stack);
      x := stack[|stack| - 1];
      cr := tr.reason[x.v].value;
      var c := db.ca[cr].lits;
      if |c| == 2 && Val(c[0]) == LFalse {
        OrientTop(tr, db, |tr.assigns|, problem, kept, seen0, seen, added, stack, cr, Top(tr), kept0);
        db := db.(ca := SwapWatches(db.ca, cr));
      }
      ArenaKnown(tr, db, |tr.assigns|, problem);
      PopStack(tr, db.ca, |tr.assigns|, kept, seen0, seen, added, stack[..|stack| - 1], x, cr);
    }

    /** Whether p follows from marked variables; if not, the marks made on the way are undone. */
    method LitRedundant(p: Lit, abstractLevels: set<nat>, ghost kept: set<nat>, ghost marked0: set<nat>) returns (redundant: bool)
      requires BaseOk(tr, db, |tr.assigns|, problem) && PropOk(tr, db, Top(tr)) && tr.Sized(|tr.assigns|)
      requires |seen| == |tr.assigns| && Closed(tr, db.ca, kept, Marked(seen)) && Marked(seen) <= VarsOf(analyzeToclear)
      requires p.v < |seen| && seen[p.v] && HasReason(tr, p.v) && InRange(analyzeToclear, |seen|)
      requires FineMarks(tr, problem, marked0, abstractLevels, Marked(seen))
      modifies this`db, this`seen, this`analyzeToclear
      ensures FineMarks(tr, problem, marked0, abstractLevels, Marked(seen))
      ensures redundant <==> !Needed(tr, problem, marked0, abstractLevels, p.v)
      ensures BaseOk(tr, db, |tr.assigns|, problem) && PropOk(tr, db, Top(tr))
      ensures |seen| == |tr.assigns| && old(Marked(seen)) <= Marked(seen) <= VarsOf(analyzeToclear)
      ensures InRange(analyzeToclear, |seen|)
      ensures redundant ==> Closed(tr, db.ca, kept - {p.v}, Marked(seen))
      ensures !redundant ==> Closed(tr, db.ca, kept, Marked(seen)) && seen == old(seen) && analyzeToclear == old(analyzeToclear)
    {
      hide BaseOk, PropOk, Checking, Closed, Popped, MarksSince, Tracking, Needed, FineMarks, VarsOf, Marked;
      var stack := [p];
      var top := |analyzeToclear|;
      ghost var seen0, toclear0 := seen, analyzeToclear;
      ghost var kept' := kept - {p.v};
      BeginCheck(tr, db, |tr.assigns|, problem, kept, seen, analyzeToclear, p);
      StartTracking(tr, problem, marked0, abstractLevels, p.v, Marked(seen));
      FirstOnStack(analyzeToclear, p);
      while stack != []
        invariant BaseOk(tr, db, |tr.assigns|, problem) && PropOk(tr, db, Top(tr))
        invariant top <= |analyzeToclear| && analyzeToclear[..top] == toclear0
        invariant Checking(tr, db.ca, |tr.assigns|, kept', seen0, seen, analyzeToclear[top..], stack)
        invariant Closed(tr, db.ca, kept, Marked(seen0)) && VarsOf(stack) <= VarsOf(analyzeToclear[top..]) + {p.v}
        invariant Tracking(tr, problem, marked0, abstractLevels, p.v, Marked(seen0), VarsOf(analyzeToclear[top..]), VarsOf(stack))
        decreases Unmarked(seen), |stack|
      {
        var fine;
        fine, stack := CheckTop(stack, abstractLevels, p.v, marked0, kept, kept', seen0, top);
        if !fine {
          UndoMarks(top, seen0);
          return false;
        }
      }
      CheckFinished(tr, db.ca, |tr.assigns|, kept', seen0, seen, analyzeToclear, top);
      TrackFinished(tr, db.ca, problem, |tr.assigns|, kept', seen0, seen, analyzeToclear[top..], stack, marked0, abstractLevels, p.v);
      return true;
    }

    /** Replaces the literal on top of the stack by those of its antecedents that need a check. */
    method CheckTop(stack0: seq<Lit>, abstractLevels: set<nat>, ghost p0: nat, ghost marked0: set<nat>, ghost kept: set<nat>, ghost kept': set<nat>,
                    ghost seen0: seq<bool>, top: nat) returns (fine: bool, stack: seq<Lit>)
      requires BaseOk(tr, db, |tr.assigns|, problem) && PropOk(tr, db, Top(tr)) && stack0 != []
      requires tr.Sized(|tr.assigns|) && Closed(tr, db.ca, kept, Marked(seen0)) && top <= |analyzeToclear|
      requires Checking(tr, db.ca, |tr.assigns|, kept', seen0, seen, analyzeToclear[top..], stack0)
      requires VarsOf(stack0) <= VarsOf(analyzeToclear[top..]) + {p0}
      requires Tracking(tr, problem, marked0, abstractLevels, p0, Marked(seen0), VarsOf(analyzeToclear[top..]), VarsOf(stack0))
      modifies this`db, this`seen, this`analyzeToclear
      ensures BaseOk(tr, db, |tr.assigns|, problem) && PropOk(tr, db, Top(tr)) && Closed(tr, db.ca, kept, Marked(seen0))
      ensures top <= |analyzeToclear| && analyzeToclear[..top] == old(analyzeToclear[..top])
      ensures fine ==> Checking(tr, db.ca, |tr.assigns|, kept', seen0, seen, analyzeToclear[top..], stack)
      ensures fine ==> Unmarked(seen) < old(Unmarked(seen)) || (Unmarked(seen) == old(Unmarked(seen)) && |stack| < |stack0|)
      ensures !fine ==> MarksSince(seen0, seen, analyzeToclear[top..]) && Needed(tr, problem, marked0, abstractLevels, p0)
      ensures fine ==> VarsOf(stack) <= VarsOf(analyzeToclear[top..]) + {p0}
      ensures fine ==> Tracking(tr, problem, marked0, abstractLevels, p0, Marked(seen0), VarsOf(analyzeToclear[top..]), VarsOf(stack))
    {
      hide BaseOk, PropOk, Checking, Closed, Popped, MarksSince, Unmarked, Tracking, Needed, SaysSame, VarsOf, Marked;
      var x, cr := PopAndOrient(stack0, kept, kept', seen0, analyzeToclear[top..]);
      StoreSays(tr, db, |tr.assigns|, problem, cr);
      PoppedVars(stack0);
      fine, stack := ReadReason(x, cr, stack0[..|stack0| - 1], abstractLevels, p0, marked0, kept', seen0, top);
      if fine {
        ReadDone(tr, db.ca, |tr.assigns|, kept', seen0, seen, analyzeToclear[top..], stack, x, cr);
      }
    }

    /** ccmin-mode 2: drops every literal that follows from the others, however indirectly. */
    method MinimiseDeep(learnt: seq<Lit>) returns (out: seq<Lit>)
      requires BaseOk(tr, db, |tr.assigns|, problem) && PropOk(tr, db, Top(tr))
      requires Asserting(tr, learnt) && Cut(problem, tr, VarsOf(learnt))
      requires |seen| == |tr.assigns| && Marked(seen) == VarsOf(learnt[1..])
      modifies this`db, this`seen, this`analyzeToclear
      ensures BaseOk(tr, db, |tr.assigns|, problem) && PropOk(tr, db, Top(tr))
      ensures Asserting(tr, out) && Cut(problem, tr, VarsOf(out)) && forall l :: l in out ==> l in learnt
      ensures |seen| == |tr.assigns| && Marked(seen) <= VarsOf(analyzeToclear) && InRange(analyzeToclear, |seen|)
      ensures |learnt| >= 1 && out == DeepMinimised(tr, problem, learnt)
    {
      hide BaseOk, PropOk, Asserting, Minimising, Closed, Cut, FineMarks, Staying, VarsOf, Marked;
      SizedBase(tr, db, |tr.assigns|, problem);
      analyzeToclear := learnt;
      AssertingSized(tr, learnt);
      StartMinimising(tr, db.ca, seen, learnt);
      var abstractLevels := LevelsOf(learnt);
      ghost var marked0 := VarsOf(learnt[1..]);
      NothingFine(tr, problem, marked0, abstractLevels);
      FirstStays(tr, problem, marked0, abstractLevels, learnt);
      out := learnt;
      var j: nat := 1;
      for i := 1 to |out|
        invariant |out| == |learnt| && BaseOk(tr, db, |tr.assigns|, problem) && PropOk(tr, db, Top(tr))
        invariant Minimising(tr, db.ca, seen, analyzeToclear, learnt, out, i, j) && j <= |out|
        invariant FineMarks(tr, problem, marked0, abstractLevels, Marked(seen))
        invariant out[..j] == Staying(tr, problem, marked0, abstractLevels, learnt, i)
      {
        out, j := MinimiseOne(learnt, out, i, j, abstractLevels, marked0);
      }
      Minimised(tr, db, |tr.assigns|, problem, seen, analyzeToclear, learnt, out, j);
      MinimisingMarks(tr, db.ca, seen, analyzeToclear, learnt, out, |out|, j);
      out := out[..j];
    }

    /** The bits of the levels of the literals after the first. */
    method LevelsOf(learnt: seq<Lit>) returns (abstractLevels: set<nat>)
      requires tr.Sized(|tr.assigns|) && |learnt| >= 1 && forall i :: 0 <= i < |learnt| ==> learnt[i].v < |tr.assigns|
      ensures abstractLevels == LevelBits(tr, learnt)
    {
      abstractLevels := {};
      for i := 1 to |learnt|
        invariant abstractLevels == set k | 1 <= k < i && learnt[k].v < |tr.level| :: tr.level[learnt[k].v] % 32
      {
        abstractLevels := abstractLevels + {AbstractLevel(tr.level[learnt[i].v])};
      }
    }

    method MinimiseOne(learnt: seq<Lit>, out0: seq<Lit>, i: nat, j0: nat, abstractLevels: set<nat>, ghost marked0: set<nat>)
      returns (out: seq<Lit>, j: nat)
      requires BaseOk(tr, db, |tr.assigns|, problem) && PropOk(tr, db, Top(tr)) && Asserting(tr, learnt)
      requires Minimising(tr, db.ca, seen, analyzeToclear, learnt, out0, i, j0) && 1 <= i < |out0| == |learnt| && j0 <= |out0|
      requires FineMarks(tr, problem, marked0, abstractLevels, Marked(seen))
      requires out0[..j0] == Staying(tr, problem, marked0, abstractLevels, learnt, i)
      modifies this`db, this`seen, this`analyzeToclear
      ensures |out| == |out0| && BaseOk(tr, db, |tr.assigns|, problem) && PropOk(tr, db, Top(tr))
      ensures Minimising(tr, db.ca, seen, analyzeToclear, learnt, out, i + 1, j) && j <= |out|
      ensures FineMarks(tr, problem, marked0, abstractLevels, Marked(seen))
      ensures out[..j] == Staying(tr, problem, marked0, abstractLevels, learnt, i + 1)
    {
      hide BaseOk, PropOk, Asserting, Minimising, Closed, FineMarks, Staying, Needed, VarsOf, Marked;
      AssertingSized(tr, learnt);
      MinimisingAt(tr, db.ca, seen, analyzeToclear, learnt, out0, i, j0);
      var p := out0[i];
      ghost var kept := VarsOf(out0[..j0]) + VarsOf(learnt[i..]);
      NextStays(tr, problem, marked0, abstractLevels, learnt, i);
      AssertingHasReason(tr, learnt, i);
      SeenMarked(seen, p.v);
      if tr.reason[p.v].Some? {
        ghost var ca0, seen0, toclear0 := db.ca, seen, analyzeToclear;
        var redundant := LitRedundant(p, abstractLevels, kept, marked0);
        if redundant {
          MinimiseDrop(tr, ca0, seen0, toclear0, learnt, out0, i, j0, db.ca, seen, analyzeToclear);
          return out0, j0;
        }
        MinimiseSame(tr, ca0, seen, analyzeToclear, learnt, out0, i, j0, db.ca);
      }
      MinimiseKeep(tr, db.ca, seen, analyzeToclear, learnt, out0, i, j0);
      assert out0[j0 := p][..j0 + 1] == out0[..j0] + [p];
      return out0[j0 := p], j0 + 1;
    }

    /** ccmin-mode 1: drops the literals whose reasons are made of marked literals. */
    method MinimiseBasic(learnt: seq<Lit>) returns (out: seq<Lit>)
      requires BaseOk(tr, db, |tr.assigns|, problem)
      requires Asserting(tr, learnt) && Cut(problem, tr, VarsOf(learnt))
      requires |seen| == |tr.assigns| && Marked(seen) == VarsOf(learnt[1..])
      modifies this`analyzeToclear
      ensures Asserting(tr, out) && Cut(problem, tr, VarsOf(out)) && forall l :: l in out ==> l in learnt
      ensures Marked(seen) <= VarsOf(analyzeToclear) && InRange(analyzeToclear, |seen|)
      ensures |learnt| >= 1 && out == BasicMinimised(tr, problem, learnt)
    {
      hide BaseOk, Asserting, Minimising, Closed, Cut, Staying, Stays, VarsOf, Marked;
      SizedBase(tr, db, |tr.assigns|, problem);
      analyzeToclear := learnt;
      AssertingSized(tr, learnt);
      StartMinimising(tr, db.ca, seen, learnt);
      FirstStays(tr, problem, Marked(seen), {}, learnt);
      out := learnt;
      var j: nat := 1;
      for i := 1 to |out|
        invariant |out| == |learnt| && analyzeToclear == learnt && j <= |out|
        invariant Minimising(tr, db.ca, seen, learnt, learnt, out, i, j)
        invariant out[..j] == Staying(tr, problem, Marked(seen), {}, learnt, i)
      {
        MinimisingAt(tr, db.ca, seen, learnt, learnt, out, i, j);
        NextStays(tr, problem, Marked(seen), {}, learnt, i);
        var needed := BasicNeeded(learnt, out, i, j);
        if needed {
          MinimiseKeep(tr, db.ca, seen, learnt, learnt, out, i, j);
          assert out[j := out[i]][..j + 1] == out[..j] + [out[i]];
          out := out[j := out[i]];
          j := j + 1;
        } else {
          MinimiseDrop(tr, db.ca, seen, learnt, learnt, out, i, j, db.ca, seen, learnt);
        }
      }
      Minimised(tr, db, |tr.assigns|, problem, seen, learnt, learnt, out, j);
      MinimisingMarks(tr, db.ca, seen, learnt, learnt, out, |out|, j);
      out := out[..j];
    }

    /** Whether the literal at i must stay: it is a decision or has an unmarked antecedent. */
    method BasicNeeded(learnt: seq<Lit>, out: seq<Lit>, i: nat, j: nat) returns (needed: bool)
      requires BaseOk(tr, db, |tr.assigns|, problem) && Asserting(tr, learnt) && 1 <= i < |out|
      requires Minimising(tr, db.ca, seen, learnt, learnt, out, i, j)
      ensures j <= |out| && i < |learnt|
      ensures !needed ==> tr.Sized(|tr.assigns|) && Closed(tr, db.ca, VarsOf(out[..j]) + VarsOf(learnt[i..]) - {learnt[i].v}, Marked(seen))
      ensures needed <==> Stays(tr, problem, Marked(seen), {}, learnt[i].v)
    {
      hide BaseOk, Asserting, Minimising, Closed, Needed, SaysSame, VarsOf;
      MinimisingAt(tr, db.ca, seen, learnt, learnt, out, i, j);
      AssertingHasReason(tr, learnt, i);
      var x := out[i];
      if tr.reason[x.v].None? {
        return true;
      }
      ReasonShape(tr, db, |tr.assigns|, problem, x.v);
      var cr := tr.reason[x.v].value;
      StoreSays(tr, db, |tr.assigns|, problem, cr);
      var c := db.ca[cr].lits;
      for k := if |c| == 2 then 0 else 1 to |c|
        invariant forall m :: (if |c| == 2 then 0 else 1) <= m < k ==> seen[c[m].v] || tr.level[c[m].v] == 0
      {
        if !seen[c[k].v] && tr.level[c[k].v] > 0 {
          BasicMustStay(tr, problem, seen, x.v, cr, c, k);
          return true;
        }
      }
      BasicMayGo(tr, problem, seen, x.v, cr, c);
      BasicRedundant(tr, db, |tr.assigns|, problem, seen, VarsOf(out[..j]) + VarsOf(learnt[i..]), x);
      return false;
    }

    /** Stamps the variables of the literals after the first with a new stamp. */
    method StampRest(learnt: seq<Lit>)
      requires Asserting(tr, learnt) && |permDiff| == |tr.assigns| && forall v :: 0 <= v < |permDiff| ==> permDiff[v] <= flag
      modifies this`permDiff, this`flag
      ensures |permDiff| == |tr.assigns| && flag > 0 && forall v :: 0 <= v < |permDiff| ==> permDiff[v] <= flag
      ensures Flagged(permDiff, flag) == VarsOf(learnt[1..])
    {
      flag := flag + 1;
      assert learnt[1..1] == [];
      for i := 1 to |learnt|
        invariant |permDiff| == |tr.assigns| && flag > 0 && forall v :: 0 <= v < |permDiff| ==> permDiff[v] <= flag
        invariant Flagged(permDiff, flag) == VarsOf(learnt[1..i])
      {
        assert learnt[1..i + 1] == learnt[1..i] + [learnt[i]];
        VarsOfAppend(learnt[1..i], learnt[i]);
        assert Flagged(permDiff[learnt[i].v := flag], flag) == Flagged(permDiff, flag) + {learnt[i].v};
        permDiff := permDiff[learnt[i].v := flag];
      }
    }

    ghost predicate StampsOk()
      reads this`permDiff, this`flag, this`tr
    {
      |permDiff| == |tr.assigns| && forall v :: 0 <= v < |permDiff| ==> permDiff[v] <= flag
    }

    /** Finds the literals that a binary clause of the asserting literal makes superfluous. */
    method TrimWithBinaries(learnt: seq<Lit>) returns (nb: nat, ghost removed: set<nat>)
      requires BaseOk(tr, db, |tr.assigns|, problem) && Asserting(tr, learnt) && Cut(problem, tr, VarsOf(learnt))
      requires StampsOk() && flag > 0 && Flagged(permDiff, flag) == VarsOf(learnt[1..])
      modifies this`permDiff
      ensures StampsOk() && Trimming(tr, problem, learnt, permDiff, flag, removed) && |removed| == nb
      ensures |learnt| >= 1 && learnt[0].Neg() in db.bin && TakenOut(tr, learnt, db.bin[learnt[0].Neg()], removed)
    {
      removed, nb := {}, 0;
      TrimNothing(tr, problem, learnt, permDiff, flag);
      hide BaseOk, Asserting, Cut, Trimming, TakenOut;
      BinaryDomain(tr, db, |tr.assigns|, problem, learnt);
      TakenNone(tr, learnt);
      var p := learnt[0].Neg();
      var wbin := db.bin[p];
      for k := 0 to |wbin|
        invariant StampsOk() && Trimming(tr, problem, learnt, permDiff, flag, removed) && |removed| == nb
        invariant TakenOut(tr, learnt, wbin[..k], removed)
      {
        nb, removed := TrimOne(learnt, k, nb, removed);
      }
      assert wbin[..|wbin|] == wbin;
    }

    /** Looks at the k-th binary watcher of the negated asserting literal. */
    method TrimOne(learnt: seq<Lit>, k: nat, nb0: nat, ghost removed0: set<nat>) returns (nb: nat, ghost removed: set<nat>)
      requires BaseOk(tr, db, |tr.assigns|, problem) && |learnt| >= 1 && learnt[0].Neg() in db.bin && k < |db.bin[learnt[0].Neg()]|
      requires StampsOk() && flag > 0 && Trimming(tr, problem, learnt, permDiff, flag, removed0) && |removed0| == nb0
      requires TakenOut(tr, learnt, db.bin[learnt[0].Neg()][..k], removed0)
      modifies this`permDiff
      ensures StampsOk() && Trimming(tr, problem, learnt, permDiff, flag, removed) && |removed| == nb
      ensures TakenOut(tr, learnt, db.bin[learnt[0].Neg()][..k + 1], removed)
    {
      hide BaseOk, Trimming, TakenOut;
      nb, removed := nb0, removed0;
      var p := learnt[0].Neg();
      var imp := db.bin[p][k].blocker;
      BlockerKnown(tr, db, |tr.assigns|, problem, p, k);
      FlaggedLeft(tr, problem, learnt, permDiff, flag, removed);
      TakenNext(tr, learnt, db.bin[p], k, removed, Flagged(permDiff, flag));
      if permDiff[imp.v] == flag && Val(imp) == LTrue {
        TrimStep(tr, db, |tr.assigns|, problem, learnt, permDiff, flag, removed, p, k);
        nb, removed := nb + 1, removed + {imp.v};
        permDiff := permDiff[imp.v := flag - 1];
      }
    }

    /** Moves the literals that lost their stamp to the end and cuts them off. */
    method PartitionOut(learnt: seq<Lit>, nb: nat, ghost removed: set<nat>) returns (out: seq<Lit>)
      requires Trimming(tr, problem, learnt, permDiff, flag, removed) && |removed| == nb
      ensures Asserting(tr, out) && Cut(problem, tr, VarsOf(out))
      ensures VarsOf(out) == VarsOf(learnt) - removed && forall x :: x in out ==> x in learnt
      ensures |out| >= 1 && |learnt| >= 1 && out[0] == learnt[0]
    {
      ghost var flagged := Flagged(permDiff, flag);
      FirstNotRest(learnt);
      PartitionStart(tr, problem, learnt, permDiff, flag, removed);
      hide Trimming, Asserting, Cut, Partition;
      out := learnt;
      var l: nat := |out| - 1;
      var i: nat := 1;
      while i < |out| - nb
        invariant Partition(learnt, out, flagged, i, l) && i <= |out| - nb && |out| == |learnt|
        decreases l - i
      {
        PartitionBounds(tr, learnt, out, flagged, removed, i, l);
        if permDiff[out[i].v] != flag {
          PartitionSwap(learnt, out, flagged, i, l);
          out := Swapped(out, i, l);
          l := l - 1;
        } else {
          PartitionSkip(learnt, out, flagged, i, l);
          i := i + 1;
        }
      }
      PartitionExact(learnt, out, flagged, removed, i, l);
      PartitionEnd(tr, problem, learnt, permDiff, flag, removed, out, i, l);
      out := out[..i];
    }

    /** The number of different levels in c, or its size where sizes are what counts. */
    method ComputeLbd(c: seq<Lit>) returns (lbd: nat)
      requires tr.Sized(|tr.assigns|) && forall i :: 0 <= i < |c| ==> c[i].v < |tr.assigns|
      ensures lbd == Lbd(tr, c)
    {
      var nbLevels: nat := 0;
      var met: set<nat> := {};
      for i := 0 to |c|
        invariant met == LevelsIn(tr, c[..i]) && nbLevels == |met|
      {
        var l := tr.level[c[i].v];
        LevelsNext(tr, c, i);
        if l !in met {
          met := met + {l};
          nbLevels := nbLevels + 1;
        }
      }
      assert c[..|c|] == c;
      if !reduceOnSize {
        return nbLevels;
      }
      if |c| < reduceOnSizeSize {
        return |c|;
      }
      return |c| + nbLevels;
    }

    ghost function Lbd(t: Trail, c: seq<Lit>): nat
      reads this`reduceOnSize, this`reduceOnSizeSize
    {
      if !reduceOnSize then |LevelsIn(t, c)| else if |c| < reduceOnSizeSize then |c| else |c| + |LevelsIn(t, c)|
    }

    /** Minimisation with the binary clauses of the asserting literal, for a clause of few levels. */
    method MinimisationWithBinaryResolution(learnt: seq<Lit>) returns (out: seq<Lit>)
      requires BaseOk(tr, db, |tr.assigns|, problem) && Asserting(tr, learnt) && Cut(problem, tr, VarsOf(learnt)) && StampsOk()
      modifies this`permDiff, this`flag
      ensures StampsOk() && Asserting(tr, out) && Cut(problem, tr, VarsOf(out)) && forall x :: x in out ==> x in learnt
      ensures if Lbd(tr, learnt) <= lbLBDMinimizingClause then BinaryMinimised(tr, problem, learnt, out) else out == learnt
    {
      hide BaseOk, Asserting, Cut, Trimming, TakenOut, BinaryMinimised, VarsOf;
      AssertingSized(tr, learnt);
      SizedBase(tr, db, |tr.assigns|, problem);
      var lbd := ComputeLbd(learnt);
      out := learnt;
      if lbd <= lbLBDMinimizingClause {
        StampRest(learnt);
        ghost var removed;
        var nb;
        nb, removed := TrimWithBinaries(learnt);
        if nb > 0 {
          out := PartitionOut(learnt, nb, removed);
        }
        AssertingSized(tr, out);
        BinaryOut(tr, db, |tr.assigns|, problem, learnt, removed, out);
      }
    }

    /** Puts a literal of the highest remaining level second and returns its level. */
    method BacktrackLevel(learnt: seq<Lit>) returns (out: seq<Lit>, bt: nat)
      requires tr.Sized(|tr.assigns|) && |tr.lim| > 0 && Asserting(tr, learnt) && Cut(problem, tr, VarsOf(learnt))
      ensures Learnt(tr, out, bt) && Cut(problem, tr, VarsOf(out)) && SecondExchanged(learnt, out)
    {
      if |learnt| == 1 {
        return learnt, 0;
      }
      AssertingSized(tr, learnt);
      var index := HighestOther(learnt);
      SwapSecond(tr, problem, learnt, index);
      hide Asserting, Cut, Learnt;
      return Swapped(learnt, 1, index), tr.level[learnt[index].v];
    }

    /** Clears the marks of everything recorded. */
    method ClearSeen()
      requires |seen| == |tr.assigns| && Marked(seen) <= VarsOf(analyzeToclear)
      requires InRange(analyzeToclear, |seen|)
      modifies this`seen
      ensures |seen| == |tr.assigns| && forall v :: 0 <= v < |seen| ==> !seen[v]
    {
      assert analyzeToclear[0..] == analyzeToclear;
      for j := 0 to |analyzeToclear|
        invariant |seen| == |tr.assigns| && Marked(seen) <= VarsOf(analyzeToclear[j..])
      {
        VarsOfTail(analyzeToclear[j..]);
        assert analyzeToclear[j..][1..] == analyzeToclear[j + 1..];
        assert Marked(seen[analyzeToclear[j].v := false]) == Marked(seen) - {analyzeToclear[j].v};
        seen := seen[analyzeToclear[j].v := false];
      }
      assert Marked(seen) == {};
      assert forall v :: 0 <= v < |seen| && seen[v] ==> v in Marked(seen);
    }

    /** Conflict analysis: a clause that follows from the problem, is false under the trail, has
        its first literal alone on the current level, and becomes unit at the returned level. It is
        the first UIP clause as the mode minimises it (small), if short enough without what binary
        clauses drop (trimmed). */
    method Analyze(confl: nat) returns (learnt: seq<Lit>, bt: nat, ghost uip: seq<Lit>, ghost small: seq<Lit>, ghost trimmed: seq<Lit>)
      requires BaseOk(tr, db, |tr.assigns|, problem) && PropOk(tr, db, Top(tr)) && OrderReady() && StampsOk()
      requires |tr.lim| > 0 && Conflicting(tr, db.ca, confl) && SeenClear()
      modifies this`db, this`seen, this`analyzeToclear, this`permDiff, this`flag, this`varInc, order
      ensures BaseOk(tr, db, |tr.assigns|, problem) && PropOk(tr, db, Top(tr)) && OrderReady() && StampsOk()
      ensures SeenClear() && SameMembers(old(order.indices), order.indices)
      ensures Learnt(tr, learnt, bt) && Entails(problem.clauses, learnt)
      ensures Asserting(tr, uip) && VarsOf(uip) == UipVars(tr, problem, UpperIn(tr, problem, confl), |tr.lits|)
      ensures |uip| >= 1 && small == MinimisedIn(ccminMode, tr, problem, uip)
      ensures if |small| <= lbSizeMinimizingClause && Lbd(tr, small) <= lbLBDMinimizingClause
              then BinaryMinimised(tr, problem, small, trimmed) else trimmed == small
      ensures SecondExchanged(trimmed, learnt)
    {
      hide BaseOk, PropOk, Conflicting, Asserting, Cut, Learnt, SameMembers, Marked, DeepMinimised, BasicMinimised, BinaryMinimised, SecondExchanged, UipVars, UpperIn, VarsOf;
      learnt := FirstUip(confl);
      SizedBase(tr, db, |tr.assigns|, problem);
      AssertingSized(tr, learnt);
      uip := learnt;
      if ccminMode == 2 {
        learnt := MinimiseDeep(learnt);
      } else if ccminMode == 1 {
        learnt := MinimiseBasic(learnt);
      } else {
        RestMarked(learnt);
        analyzeToclear := learnt;
      }
      ClearSeen();
      small := learnt;
      if |learnt| <= lbSizeMinimizingClause {
        learnt := MinimisationWithBinaryResolution(learnt);
      }
      trimmed := learnt;
      learnt, bt := BacktrackLevel(learnt);
      LearntEntailed(tr, problem, learnt, bt);
    }

    ghost predicate SeenClear()
      reads this`seen, this`tr
    {
      |seen| == |tr.assigns| && forall v :: 0 <= v < |seen| ==> !seen[v]
    }

    // ---------- backtracking ----------

    /** Every unassigned decision variable is in the order heap. */
    ghost predicate OrderComplete()
      reads this`tr, this`decision, order
    {
      && |decision| == |tr.assigns|
      && forall v: nat :: v < |decision| && decision[v] && tr.assigns[v] == LUndef ==> order.InHeap(v)
    }

    method InsertVarOrder(v: nat)
      requires OrderReady() && v < |decision| == |tr.assigns|
      modifies order
      ensures OrderReady()
      ensures forall u: nat :: order.InHeap(u) <==> old(order.InHeap(u)) || (u == v && decision[v])
    {
      if !order.InHeap(v) && decision[v] {
        order.Insert(v);
      }
    }

    /** Whether the sign of the trail entry at c is remembered: always, never, or only on the
        current level after its decision. */
    predicate SavesPhase(t: Trail, c: nat)
      requires t.lim != []
      reads this`phaseSaving
    {
      phaseSaving > 1 || (phaseSaving == 1 && c > t.lim[|t.lim| - 1])
    }

    /** Undoes all assignments above the given level, saving phases. */
    method CancelUntil(level: nat)
      requires tr.Wf(|tr.assigns|) && OrderReady() && OrderComplete() && |polarity| == |tr.assigns|
      modifies this`tr, this`qhead, this`polarity, order
      ensures OrderReady() && OrderComplete() && |polarity| == |tr.assigns|
      ensures tr == if level < |old(tr).lim| then old(tr).Cancel(level) else old(tr)
      ensures qhead == if level < |old(tr).lim| then old(tr).lim[level] else old(qhead)
      ensures level < |old(tr).lim| ==> forall v: nat :: v < |polarity| ==>
                polarity[v] == if old(tr).Assigned(v) && !tr.Assigned(v)
                                  && (phaseSaving > 1 || (phaseSaving == 1 && old(tr).pos[v] > old(tr).lim[|old(tr).lim| - 1]))
                               then old(tr).TrueLit(v).neg else old(polarity)[v]
    {
      if level < |tr.lim| {
        ghost var t0 := tr;
        ghost var n := |tr.assigns|;
        hide Inverse, Ordered;
        NothingUnassigned(tr, n);
        var c := |tr.lits|;
        while c > tr.lim[level]
          invariant t0.lim[level] <= c <= |t0.lits| && t0.Wf(n)
          invariant tr == t0.(assigns := Unassigned(t0, c))
          invariant OrderReady() && OrderComplete() && |polarity| == n
          invariant forall v: nat :: v < n ==>
                      polarity[v] == if t0.Assigned(v) && t0.pos[v] >= c && SavesPhase(t0, t0.pos[v])
                                     then t0.TrueLit(v).neg else old(polarity)[v]
        {
          c := c - 1;
          UnassignStep(t0, n, c);
          var x := tr.lits[c].v;
          tr := tr.(assigns := tr.assigns[x := LUndef]);
          if SavesPhase(tr, c) {
            polarity := polarity[x := tr.lits[c].neg];
          }
          InsertVarOrder(x);
        }
        qhead := tr.lim[level];
        tr := tr.(lits := tr.lits[..tr.lim[level]]);
        tr := tr.(lim := tr.lim[..level]);
      }
    }

    method NewDecisionLevel()
      modifies this`tr
      ensures tr == old(tr).NewLevel()
    {
      tr := tr.(lim := tr.lim + [|tr.lits|]);
    }

    // ---------- branching ----------

    /** A decision variable that is not assigned, or none when there is none left. The random
        choice looks at the heap without removing anything. */
    method PickBranchLit() returns (next: Option<Lit>, ghost random: bool)
      requires OrderReady() && OrderComplete() && |polarity| == |tr.assigns|
      modifies order
      ensures OrderReady()
      ensures next.Some? ==> tr.IsUndef(next.value) && decision[next.value.v]
      ensures next.Some? && !rndPol ==> next.value.neg == polarity[next.value.v]
      ensures next.Some? ==> forall v: nat :: v < |decision| && decision[v] && tr.assigns[v] == LUndef && v != next.value.v ==> order.InHeap(v)
      ensures next.Some? && !random ==> next.value.v < |order.activity| && MostActive(next.value.v)
      ensures next.None? ==> OrderComplete() && forall v: nat :: v < |decision| && decision[v] ==> tr.Assigned(v)
    {
      hide Ordered;
      var v: nat := 0;
      var found := false;
      if * {
        if order.heap != [] {
          var k: nat :| k < |order.heap|;
          v := order.heap[k];
          found := tr.assigns[v] == LUndef && decision[v];
        }
      }
      random := found;
      while !found
        invariant OrderReady()
        invariant found ==> v < |tr.assigns| && tr.assigns[v] == LUndef && decision[v]
        invariant found && !random ==> MostActive(v)
        invariant forall u: nat :: u < |decision| && decision[u] && tr.assigns[u] == LUndef && !(found && u == v) ==> order.InHeap(u)
        decreases !found, |order.heap|
      {
        if order.heap == [] {
          EmptyHeap(order.heap, order.indices);
          return None, random;
        }
        v := order.RemoveMin();
        found := tr.assigns[v] == LUndef && decision[v];
      }
      var sign := polarity[v];
      if rndPol {
        sign := *;
      }
      return Some(Lit(v, sign)), random;
    }

    /** No other unassigned decision variable is more active than v. */
    ghost predicate MostActive(v: nat)
      requires v < |order.activity|
      reads this`tr, this`decision, order
    {
      forall u: nat :: u < |decision| && u < |tr.assigns| && u < |order.activity| && decision[u] && tr.assigns[u] == LUndef && u != v ==>
        order.activity[u] <= order.activity[v]
    }

    // ---------- removing clauses ----------

    /** Detaches a clause lazily and marks it deleted. It is forgotten as the reason of its first
        literal; as that of the second literal of a binary clause it stays. */
    method RemoveClause(cr: nat)
      requires Inv(tr, db, dirt, problem, qhead) && Live(db.ca, cr) && Removable(tr, db.ca[cr], cr)
      modifies this`tr, this`db, this`dirt, this`problem
      ensures Inv(tr, db, dirt, problem, qhead) && db.ca == Deleted(old(db).ca, cr)
      ensures cr in old(problem).store && problem == Forgetting(old(problem), cr)
      ensures SameButReasons(old(tr), tr) && (Unlocked(old(tr), old(db).ca[cr], cr) ==> tr == old(tr))
      ensures IsReason(tr, cr) <==> ForcedSecond(old(tr), old(db).ca[cr], cr)
    {
      hide Inv, IsReason, ForcedSecond;
      RemoveStep(tr, db, dirt, problem, qhead, cr);
      var c := db.ca[cr];
      var isLocked := Locked(tr, c, cr);
      dirt := SmudgedFor(dirt, c);
      if isLocked {
        tr := ReasonCleared(tr, c.lits[0].v);
      }
      db := db.(ca := Deleted(db.ca, cr));
      problem := Forgetting(problem, cr);
    }

    method Satisfied(c: seq<Lit>) returns (sat: bool)
      requires forall i :: 0 <= i < |c| ==> c[i].v < |tr.assigns|
      ensures sat <==> HasTrue(tr, c)
    {
      for i := 0 to |c|
        invariant forall k :: 0 <= k < i ==> !tr.IsTrue(c[k])
      {
        if Val(c[i]) == LTrue {
          return true;
        }
      }
      return false;
    }

    /** Removes the satisfied clauses of one list at level 0, with in-place compaction. */
    method RemoveSatisfied(cs: seq<nat>, ghost learnt: bool, ghost imported: bool, ghost others: seq<nat>)
      returns (rest: seq<nat>)
      requires Inv(tr, db, dirt, problem, qhead) && tr.lim == [] && ListedAs(problem, cs, learnt, imported)
      requires Complete(tr, problem, if learnt then others else cs)
      modifies this`tr, this`db, this`dirt, this`problem
      ensures Inv(tr, db, dirt, problem, qhead) && SameButReasons(old(tr), tr) && SameClauses(old(db).ca, db.ca)
      ensures ListedAs(problem, rest, learnt, imported) && KeepsOthers(old(problem), problem, learnt, imported)
      ensures Complete(tr, problem, if learnt then others else rest)
      ensures rest == Unsatisfied(old(tr), old(db).ca, cs) && tr.lim == [] && tr.lits == old(tr).lits
    {
      ghost var t0, ca0 := tr, db.ca;
      hide Inv, Complete, Sweeping, ListedAs, KeepsOthers, SameButReasons, HasTrue;
      SweepStart(problem, cs, learnt, imported);
      SameReasonsReflexive(tr);
      rest := cs;
      var i, j: nat := 0, 0;
      while i < |cs|
        invariant i <= |cs| == |rest| && j <= i && Inv(tr, db, dirt, problem, qhead) && SameButReasons(t0, tr)
        invariant tr.lim == [] && SameClauses(ca0, db.ca)
        invariant Sweeping(old(problem), problem, cs, rest, i, j, learnt, imported)
        invariant Complete(tr, problem, if learnt then others else rest[..j] + cs[i..])
        invariant rest[..j] == Unsatisfied(t0, ca0, cs[..i])
      {
        assert cs[..i + 1][..i] == cs[..i];
        rest, j := SweepOne(cs, rest, i, j, learnt, imported, others, old(problem), t0, ca0);
        i := i + 1;
      }
      assert cs[..|cs|] == cs;
      SweepEnd(old(problem), problem, cs, rest, j, learnt, imported);
      SameReasonsParts(t0, tr);
      rest := rest[..j];
    }

    method SweepOne(cs: seq<nat>, rest0: seq<nat>, i: nat, j0: nat, ghost learnt: bool, ghost imported: bool,
                    ghost others: seq<nat>, ghost f0: Problem, ghost t0: Trail, ghost ca0: Arena)
      returns (rest: seq<nat>, j: nat)
      requires Inv(tr, db, dirt, problem, qhead) && tr.lim == [] && SameButReasons(t0, tr) && SameClauses(ca0, db.ca)
      requires i < |cs| == |rest0| && j0 <= i && Sweeping(f0, problem, cs, rest0, i, j0, learnt, imported)
      requires Complete(tr, problem, if learnt then others else rest0[..j0] + cs[i..])
      modifies this`tr, this`db, this`dirt, this`problem
      ensures Inv(tr, db, dirt, problem, qhead) && tr.lim == [] && SameButReasons(t0, tr) && SameClauses(ca0, db.ca)
      ensures |rest| == |cs| && j <= i + 1 && Sweeping(f0, problem, cs, rest, i + 1, j, learnt, imported)
      ensures Complete(tr, problem, if learnt then others else rest[..j] + cs[i + 1..])
      ensures rest[..j] == if cs[i] in ca0 && HasTrue(t0, ca0[cs[i]].lits) then rest0[..j0] else rest0[..j0] + [cs[i]]
    {
      hide Inv, Complete, Sweeping, ListedAs, KeepsOthers, SameButReasons, HasTrue;
      SweepDrop(f0, problem, cs, rest0, i, j0, learnt, imported);
      SweepKeep(f0, problem, cs, rest0, i, j0, learnt, imported);
      rest, j := rest0, j0;
      var cr := rest[i];
      StoredLive(tr, db, dirt, problem, qhead, cr, learnt, imported);
      SameTruth(t0, tr, db.ca[cr].lits);
      var sat := Satisfied(db.ca[cr].lits);
      if sat {
        RootTrue(tr, db, dirt, problem, qhead, db.ca[cr].lits);
        ghost var l :| l in db.ca[cr].lits && tr.IsTrue(l) && l.v < |tr.level| && tr.level[l.v] == 0;
        ghost var t1, f1 := tr, problem;
        CompleteRemove(tr, problem, !learnt, rest[..j], cr, cs[i + 1..], others, l);
        RemoveAtRoot(tr, db.ca, cr);
        RemoveClause(cr);
        CompleteReasons(t1, tr, problem, if learnt then others else rest[..j] + cs[i + 1..]);
        SameReasonsTransitive(t0, t1, tr);
      } else {
        rest := rest[j := rest[i]];
        j := j + 1;
      }
    }

    // ---------- the final conflict ----------

    /** Marks the antecedents of the literal at position i. */
    method MarkAntecedents(i: nat, cr: nat, ghost p: Lit, ghost blamed: seq<Lit>, ghost done: set<nat>)
      requires BlamingReason(tr, db.ca, seen, p, blamed, done, i, cr) && SaysSame(problem, cr, db.ca[cr].lits)
      requires Traced(tr, problem, p.v, Marked(seen), VarsOf(blamed), done)
      modifies this`seen
      ensures i < |tr.lits| && tr.lits[i].v < |seen| && Blaming(tr, db.ca, seen[tr.lits[i].v := false], p, blamed, done + {tr.lits[i].v}, i)
      ensures Traced(tr, problem, p.v, Marked(seen[tr.lits[i].v := false]), VarsOf(blamed), done + {tr.lits[i].v})
    {
      hide BlamingReason, Blaming, MarkedFrom, Traced, SaysSame, Marked, VarsOf;
      ReadingBlame(tr, db.ca, seen, p, blamed, done, i, cr);
      var c := db.ca[cr].lits;
      var start := if |c| == 2 then 0 else 1;
      BlameNothingRead(tr, seen, c, start);
      for j := start to |c|
        invariant BlamingReason(tr, db.ca, seen, p, blamed, done, i, cr) && MarkedFrom(tr, seen, c, start, j)
        invariant Traced(tr, problem, p.v, Marked(seen), VarsOf(blamed), done)
      {
        BlameRead(tr, db.ca, seen, p, blamed, done, i, cr, start, j);
        ReadingBlame(tr, db.ca, seen, p, blamed, done, i, cr);
        if tr.level[c[j].v] > 0 {
          TraceRead(tr, problem, p.v, seen, VarsOf(blamed), done, tr.lits[i].v, cr, c, j);
          seen := seen[c[j].v := true];
        }
      }
      ReadingBlame(tr, db.ca, seen, p, blamed, done, i, cr);
      BlameReasonEnd(tr, db.ca, seen, p, blamed, done, i, cr, start);
      TraceEnd(tr, problem, p.v, seen, VarsOf(blamed), done, tr.lits[i].v, cr, c, start);
    }

    /** Reads the trail entry at i: a marked decision is blamed, a marked consequence passes the
        blame on to its antecedents. */
    method BlameOne(i: nat, out0: seq<Lit>, ghost p: Lit, ghost blamed0: seq<Lit>, ghost done0: set<nat>)
      returns (out: seq<Lit>, ghost blamed: seq<Lit>, ghost done: set<nat>)
      requires Blaming(tr, db.ca, seen, p, blamed0, done0, i + 1) && tr.lim != [] && tr.lim[0] <= i < |tr.lits|
      requires tr.Sized(|tr.assigns|) && ReasonsOk(tr, db.ca) && Stored(db.ca, problem.store) && out0 == [p] + blamed0
      requires Traced(tr, problem, p.v, Marked(seen), VarsOf(blamed0), done0)
      modifies this`seen
      ensures Blaming(tr, db.ca, seen, p, blamed, done, i) && out == [p] + blamed
      ensures Traced(tr, problem, p.v, Marked(seen), VarsOf(blamed), done)
    {
      hide Blaming, ReasonsOk, Traced, Marked, VarsOf, Stored, SaysSame;
      BlameSkip(tr, db.ca, seen, p, blamed0, done0, i);
      out, blamed, done := out0, blamed0, done0;
      var x := tr.lits[i].v;
      if seen[x] {
        if tr.reason[x].None? {
          BlameDecision(tr, db.ca, seen, p, blamed, done, i);
          TraceDecision(tr, problem, p.v, seen, blamed, done, tr.lits[i].Neg());
          out, blamed := out + [tr.lits[i].Neg()], blamed + [tr.lits[i].Neg()];
        } else {
          BlameReasonStart(tr, db.ca, seen, p, blamed, done, i);
          StoredSays(db.ca, problem, tr.reason[x].value);
          MarkAntecedents(i, tr.reason[x].value, p, blamed, done);
        }
        done := done + {x};
        seen := seen[x := false];
      }
    }

    /** Expresses why p is true in terms of the assumptions: the result follows from the problem and
        consists of p and negated assumptions, exactly those from which p was propagated. */
    method AnalyzeFinal(p: Lit) returns (out: seq<Lit>)
      requires Inv(tr, db, dirt, problem, qhead) && SeenClear() && tr.IsTrue(p)
      requires Assumed(tr, assumptions) && |tr.lim| <= |assumptions|
      modifies this`seen
      ensures SeenClear() && Entails(problem.clauses, out)
      ensures |out| >= 1 && out[0] == p && forall k :: 1 <= k < |out| ==> out[k].Neg() in assumptions
      ensures forall v :: v in VarsOf(out[1..]) <==> Blames(tr, problem, p.v, v)
    {
      hide Blaming, ReasonsOk, RootSound, ArenaOk, ListsOk, Attached, Lazy, PropOk, Assumed, Traced, Blames, Marked, VarsOf, Stored;
      out := [p];
      if |tr.lim| == 0 {
        RootBlame(tr, problem, p);
        NobodyBlamed(tr, db.ca, problem, p);
        NoVars(out[1..]);
        return;
      }
      NothingMarked(seen);
      BlameStart(tr, db.ca, seen, p);
      TraceStart(tr, problem, seen, p.v);
      seen := seen[p.v := true];
      ghost var blamed: seq<Lit>, done: set<nat> := [], {};
      var i := |tr.lits|;
      while i > tr.lim[0]
        invariant tr.lim[0] <= i <= |tr.lits|
        invariant Blaming(tr, db.ca, seen, p, blamed, done, i) && out == [p] + blamed
        invariant Traced(tr, problem, p.v, Marked(seen), VarsOf(blamed), done)
      {
        i := i - 1;
        out, blamed, done := BlameOne(i, out, p, blamed, done);
      }
      BlamedExactly(tr, db.ca, problem, seen, p, blamed, done);
      assert out[1..] == blamed;
      BlameEntails(tr, db.ca, problem, seen, p, blamed, done);
      BlamedAssumptions(tr, db.ca, seen, p, blamed, done, i, assumptions);
      BlamingSized(tr, db.ca, seen, p, blamed, done, i);
      AllUnmarked(seen, p.v);
      seen := seen[p.v := false];
    }

    // ---------- the state between two steps of the search ----------

    /** The invariant of the data structures; q trail literals are propagated. */
    ghost predicate Sound(q: nat)
      reads this`tr, this`db, this`dirt, this`problem, this`decision, this`polarity
      reads this`seen, this`permDiff, this`flag, this`varInc, order
    {
      && Inv(tr, db, dirt, problem, q) && OrderReady() && OrderComplete() && |polarity| == |tr.assigns|
      && StampsOk() && SeenClear()
    }

    lemma SoundTrail(q: nat)
      requires Sound(q)
      ensures tr.Wf(|tr.assigns|) && Top(tr) <= q <= |tr.lits|
    {
      InvBounds(tr, db, dirt, problem, q);
    }

    lemma SoundRefuted(cr: nat)
      requires Sound(Top(tr)) && dirt == Dirt([], [], []) && Conflicting(tr, db.ca, cr) && tr.lim == []
      ensures Unsat(problem.clauses)
    {
      RefutedAtRoot(tr, db, dirt, problem, cr);
    }

    /** The solver's invariant: in addition the clause lists account for the problem, and the
        first decision levels for the assumptions. */
    ghost predicate Core(q: nat)
      reads this, order
    {
      && Sound(q) && Assumed(tr, assumptions)
      && Recorded(tr, problem, clauses, learnts, unaryWatchedClauses)
    }

    lemma CoreTrail(q: nat)
      requires Core(q)
      ensures tr.Wf(|tr.assigns|) && Top(tr) <= q <= |tr.lits|
    {
      SoundTrail(q);
    }

    // ---------- simplification ----------

    /** Fills the order heap with exactly the unassigned decision variables. */
    method RebuildOrderHeap()
      requires OrderReady() && OrderComplete()
      modifies order
      ensures OrderReady() && OrderComplete()
      ensures forall v: nat :: order.InHeap(v) <==> v < |decision| && decision[v] && tr.assigns[v] == LUndef
    {
      var vs: seq<nat> := [];
      for v := 0 to |tr.assigns|
        invariant forall i :: 0 <= i < |vs| ==> vs[i] < v
        invariant forall i, j :: 0 <= i < j < |vs| ==> vs[i] < vs[j]
        invariant forall u: nat :: u in vs <==> u < v && decision[u] && tr.assigns[u] == LUndef
      {
        if decision[v] && tr.assigns[v] == LUndef {
          vs := vs + [v];
        }
      }
      forall i | 0 <= i < |vs|
        ensures vs[i] < |order.indices|
      {
        assert vs[i] in vs && order.InHeap(vs[i]);
      }
      order.Build(vs);
    }

    /** Propagate within the search. */
    method PropagateCore() returns (confl: Option<nat>)
      requires Core(qhead)
      modifies this`tr, this`db, this`dirt, this`qhead
      ensures Core(if confl.None? then qhead else Top(tr)) && Grows(old(tr), tr) && tr.lim == old(tr).lim && dirt == Dirt([], [], []) && qhead <= |tr.lits|
      ensures confl.None? ==> qhead == |tr.lits| && AllStable(tr, db.ca) && NoneMissed(tr, db.ca)
      ensures confl.Some? ==> Conflicting(tr, db.ca, confl.value)
    {
      hide Inv, Complete, ListedAs, Assumed, AllStable, NoneMissed, Conflicting, Extends, Ordered, Inverse;
      ghost var t0 := tr;
      InvBounds(tr, db, dirt, problem, qhead);
      confl := Propagate();
      InvBounds(tr, db, dirt, problem, if confl.None? then qhead else Top(tr));
      ExtendsTop(t0, tr);
      ExtendsGrows(t0, tr, |tr.assigns|);
      SameLevels(t0, tr);
      CompleteExtends(t0, tr, |tr.assigns|, problem, clauses);
      AssumedExtends(t0, tr, |tr.assigns|, assumptions);
      ExtendsUnassigned(t0, tr);
    }

    method RemoveSatisfiedLearnts()
      requires Inv(tr, db, dirt, problem, qhead) && tr.lim == [] && Recorded(tr, problem, clauses, learnts, unaryWatchedClauses)
      modifies this`tr, this`db, this`dirt, this`problem, this`learnts
      ensures Inv(tr, db, dirt, problem, qhead) && Recorded(tr, problem, clauses, learnts, unaryWatchedClauses)
      ensures SameButReasons(old(tr), tr) && problem.clauses == old(problem).clauses && tr.lim == []
      ensures learnts == Unsatisfied(old(tr), old(db).ca, old(learnts))
      ensures SameClauses(old(db).ca, db.ca)
    {
      hide Inv, Complete, ListedAs, KeepsOthers, SameButReasons, SameClauses;
      ghost var f0 := problem;
      learnts := RemoveSatisfied(learnts, true, false, clauses);
      RemoveOthers(f0, problem, true, false, clauses, learnts, unaryWatchedClauses);
    }

    method RemoveSatisfiedImports()
      requires Inv(tr, db, dirt, problem, qhead) && tr.lim == [] && Recorded(tr, problem, clauses, learnts, unaryWatchedClauses)
      modifies this`tr, this`db, this`dirt, this`problem, this`unaryWatchedClauses
      ensures Inv(tr, db, dirt, problem, qhead) && Recorded(tr, problem, clauses, learnts, unaryWatchedClauses)
      ensures SameButReasons(old(tr), tr) && problem.clauses == old(problem).clauses && tr.lim == []
      ensures unaryWatchedClauses == Unsatisfied(old(tr), old(db).ca, old(unaryWatchedClauses))
      ensures SameClauses(old(db).ca, db.ca)
    {
      hide Inv, Complete, ListedAs, KeepsOthers, SameButReasons, SameClauses;
      ghost var f0 := problem;
      unaryWatchedClauses := RemoveSatisfied(unaryWatchedClauses, true, true, clauses);
      RemoveOthers(f0, problem, true, true, clauses, learnts, unaryWatchedClauses);
    }

    method RemoveSatisfiedClauses()
      requires Inv(tr, db, dirt, problem, qhead) && tr.lim == [] && Recorded(tr, problem, clauses, learnts, unaryWatchedClauses)
      modifies this`tr, this`db, this`dirt, this`problem, this`clauses
      ensures Inv(tr, db, dirt, problem, qhead) && Recorded(tr, problem, clauses, learnts, unaryWatchedClauses)
      ensures SameButReasons(old(tr), tr) && problem.clauses == old(problem).clauses && tr.lim == []
      ensures clauses == Unsatisfied(old(tr), old(db).ca, old(clauses))
      ensures SameClauses(old(db).ca, db.ca)
    {
      hide Inv, Complete, ListedAs, KeepsOthers, SameButReasons, SameClauses;
      ghost var f0 := problem;
      clauses := RemoveSatisfied(clauses, false, false, []);
      RemoveOthers(f0, problem, false, false, clauses, learnts, unaryWatchedClauses);
    }

    method SweepLists()
      requires Inv(tr, db, dirt, problem, qhead) && tr.lim == [] && Recorded(tr, problem, clauses, learnts, unaryWatchedClauses)
      modifies this`tr, this`db, this`dirt, this`problem, this`clauses, this`learnts, this`unaryWatchedClauses
      ensures Inv(tr, db, dirt, problem, qhead) && Recorded(tr, problem, clauses, learnts, unaryWatchedClauses)
      ensures SameButReasons(old(tr), tr) && problem.clauses == old(problem).clauses && SameClauses(old(db).ca, db.ca)
      ensures learnts == Unsatisfied(old(tr), old(db).ca, old(learnts))
      ensures unaryWatchedClauses == Unsatisfied(old(tr), old(db).ca, old(unaryWatchedClauses))
      ensures clauses == if removeSatisfied then Unsatisfied(old(tr), old(db).ca, old(clauses)) else old(clauses)
    {
      hide Inv, Recorded, Unsatisfied;
      ghost var t0, ca0 := tr, db.ca;
      RemoveSatisfiedLearnts();
      UnsatisfiedSame(t0, tr, ca0, db.ca, unaryWatchedClauses);
      RemoveSatisfiedImports();
      if removeSatisfied {
        UnsatisfiedSame(t0, tr, ca0, db.ca, clauses);
        RemoveSatisfiedClauses();
      }
    }

    /** Each of the lists names exactly the clauses of the given state that have no true literal. */
    ghost predicate Swept(t0: Trail, ca0: Arena, clauses0: seq<nat>, learnts0: seq<nat>, imports0: seq<nat>)
      reads this`db, this`clauses, this`learnts, this`unaryWatchedClauses, this`removeSatisfied
    {
      && SameNamed(ca0, Unsatisfied(t0, ca0, learnts0), db.ca, learnts)
      && SameNamed(ca0, Unsatisfied(t0, ca0, imports0), db.ca, unaryWatchedClauses)
      && SameNamed(ca0, if removeSatisfied then Unsatisfied(t0, ca0, clauses0) else clauses0, db.ca, clauses)
    }

    /** No clause of the lists that are swept has a true literal. */
    ghost predicate NoneSatisfied()
      reads this`tr, this`db, this`clauses, this`learnts, this`unaryWatchedClauses, this`removeSatisfied
    {
      && NoneTrue(tr, db.ca, learnts) && NoneTrue(tr, db.ca, unaryWatchedClauses)
      && (removeSatisfied ==> NoneTrue(tr, db.ca, clauses))
    }

    /** A garbage collection keeps what was swept. */
    lemma StillSwept(t0: Trail, ca0: Arena, ca1: Arena, clauses0: seq<nat>, learnts0: seq<nat>, imports0: seq<nat>,
                     clauses1: seq<nat>, learnts1: seq<nat>, imports1: seq<nat>)
      requires SameClauses(ca0, ca1)
      requires learnts1 == Unsatisfied(t0, ca0, learnts0) && imports1 == Unsatisfied(t0, ca0, imports0)
      requires clauses1 == if removeSatisfied then Unsatisfied(t0, ca0, clauses0) else clauses0
      requires SameNamed(ca1, clauses1, db.ca, clauses) && SameNamed(ca1, learnts1, db.ca, learnts)
      requires SameNamed(ca1, imports1, db.ca, unaryWatchedClauses)
      ensures Swept(t0, ca0, clauses0, learnts0, imports0)
    {
      hide Unsatisfied, SameClauses, SameNamed;
      SameNamedFrom(ca0, ca1, clauses1, db.ca, clauses);
      SameNamedFrom(ca0, ca1, learnts1, db.ca, learnts);
      SameNamedFrom(ca0, ca1, imports1, db.ca, unaryWatchedClauses);
    }

    lemma SweptClean(t0: Trail, ca0: Arena, clauses0: seq<nat>, learnts0: seq<nat>, imports0: seq<nat>)
      requires Swept(t0, ca0, clauses0, learnts0, imports0) && tr.assigns == t0.assigns
      requires forall cr :: cr in clauses0 + learnts0 + imports0 ==> cr in ca0
      ensures NoneSatisfied()
    {
      hide Unsatisfied, NoneTrue, SameNamed;
      UnsatisfiedTrue(t0, ca0, learnts0);
      UnsatisfiedTrue(t0, ca0, imports0);
      UnsatisfiedTrue(t0, ca0, clauses0);
      NoneTrueNamed(t0, tr, ca0, Unsatisfied(t0, ca0, learnts0), db.ca, learnts);
      NoneTrueNamed(t0, tr, ca0, Unsatisfied(t0, ca0, imports0), db.ca, unaryWatchedClauses);
      if removeSatisfied {
        NoneTrueNamed(t0, tr, ca0, Unsatisfied(t0, ca0, clauses0), db.ca, clauses);
      }
    }

    /** Removes the satisfied clauses of the three lists and rebuilds the order heap. */
    method SimplifyLists()
      requires Core(qhead) && tr.lim == []
      modifies this`tr, this`db, this`dirt, this`problem, order
      modifies this`clauses, this`learnts, this`unaryWatchedClauses
      ensures Core(qhead) && Grows(old(tr), tr) && problem.clauses == old(problem).clauses && tr.lits == old(tr).lits
      ensures forall v: nat :: order.InHeap(v) <==> v < |decision| && decision[v] && tr.assigns[v] == LUndef
      ensures Swept(old(tr), old(db).ca, old(clauses), old(learnts), old(unaryWatchedClauses)) && NoneSatisfied()
    {
      hide Inv, Recorded, Assumed, Ordered, Inverse, SameButReasons, Grows, Unsatisfied, NoneSatisfied, SameNamed, SameClauses,
           Swept, Lbd;
      ghost var t0, ca0, cs, ls, us := tr, db.ca, clauses, learnts, unaryWatchedClauses;
      RecordedRefs();
      InvBounds(tr, db, dirt, problem, qhead);
      SweepLists();
      SameReasonsGrow(t0, tr, |t0.assigns|);
      SameReasonsParts(t0, tr);
      AssumedReasons(t0, tr, assumptions);
      ghost var t1, ca1, cs1, ls1, us1 := tr, db.ca, clauses, learnts, unaryWatchedClauses;
      CheckGarbage();
      StillSwept(t0, ca0, ca1, cs, ls, us, cs1, ls1, us1);
      SoundTrail(qhead);
      SameAssignmentGrows(t1, tr, |t0.assigns|);
      GrowsTransitive(t0, t1, tr);
      SweptClean(t0, ca0, cs, ls, us);
      RebuildOrderHeap();
    }

    lemma RecordedRefs()
      requires Core(qhead)
      ensures forall cr :: cr in clauses + learnts + unaryWatchedClauses ==> cr in db.ca
    {
      hide ListsOk, Attached, PropOk, Lazy, ReasonsOk, RootSound, Ordered, Inverse, Complete;
      ListedKnown(db.ca, problem, clauses, false, false);
      ListedKnown(db.ca, problem, learnts, true, false);
      ListedKnown(db.ca, problem, unaryWatchedClauses, true, true);
    }

    /** At level 0: propagates, then possibly removes the satisfied clauses. False means that the
        problem is unsatisfiable. */
    method Simplify() returns (r: bool)
      requires Core(qhead) && tr.lim == [] && ok
      modifies this`tr, this`db, this`dirt, this`qhead, this`problem, this`ok, order
      modifies this`clauses, this`learnts, this`unaryWatchedClauses
      ensures problem.clauses == old(problem).clauses && Grows(old(tr), tr) && r == ok
      ensures r ==> Core(qhead) && qhead == |tr.lits|
      ensures !r ==> Core(Top(tr)) && Unsat(problem.clauses)
      ensures r ==> NoneSatisfied() || (clauses == old(clauses) && learnts == old(learnts) && unaryWatchedClauses == old(unaryWatchedClauses))
    {
      hide Grows, Conflicting, AllStable, Inv, Swept, NoneSatisfied;
      var confl := PropagateCore();
      if confl.Some? {
        RefutedAtRoot(tr, db, dirt, problem, confl.value);
        ok := false;
        return false;
      }
      if * {
        return true;
      }
      ghost var t1 := tr;
      SimplifyLists();
      assert qhead == |tr.lits|;
      GrowsTransitive(old(tr), t1, tr);
      return true;
    }

    // ---------- clause-database reduction ----------

    /** Removes some long clauses of one list that are not reasons; which ones is a matter of
        heuristics. */
    method ReduceList(cs: seq<nat>, ghost imported: bool) returns (rest: seq<nat>)
      requires Inv(tr, db, dirt, problem, qhead) && ListedAs(problem, cs, true, imported) && Complete(tr, problem, clauses)
      modifies this`tr, this`db, this`dirt, this`problem
      ensures Inv(tr, db, dirt, problem, qhead) && tr == old(tr) && Complete(tr, problem, clauses)
      ensures ListedAs(problem, rest, true, imported) && KeepsOthers(old(problem), problem, true, imported)
      ensures Reduced(tr, old(db).ca, cs, rest)
    {
      ghost var ca0, f0 := db.ca, problem;
      hide Inv, Complete, Sweeping, ListedAs, KeepsOthers;
      SweepStart(problem, cs, true, imported);
      assert Reduced(tr, ca0, cs[..0], []);
      hide Reduced;
      rest := cs;
      var i, j: nat := 0, 0;
      while i < |cs|
        invariant i <= |cs| == |rest| && j <= i && Inv(tr, db, dirt, problem, qhead) && tr == old(tr)
        invariant SameClauses(ca0, db.ca) && Sweeping(f0, problem, cs, rest, i, j, true, imported)
        invariant Complete(tr, problem, clauses) && Reduced(tr, ca0, cs[..i], rest[..j])
      {
        assert cs[..i + 1] == cs[..i] + [cs[i]];
        rest, j := ReduceOne(cs, rest, i, j, imported, f0, ca0);
        i := i + 1;
      }
      assert cs[..|cs|] == cs;
      SweepEnd(f0, problem, cs, rest, j, true, imported);
      rest := rest[..j];
    }

    method ReduceOne(cs: seq<nat>, rest0: seq<nat>, i: nat, j0: nat, ghost imported: bool, ghost f0: Problem, ghost ca0: Arena)
      returns (rest: seq<nat>, j: nat)
      requires Inv(tr, db, dirt, problem, qhead) && SameClauses(ca0, db.ca) && Complete(tr, problem, clauses)
      requires i < |cs| == |rest0| && j0 <= i && Sweeping(f0, problem, cs, rest0, i, j0, true, imported)
      requires Reduced(tr, ca0, cs[..i], rest0[..j0])
      modifies this`tr, this`db, this`dirt, this`problem
      ensures Inv(tr, db, dirt, problem, qhead) && tr == old(tr) && SameClauses(ca0, db.ca) && Complete(tr, problem, clauses)
      ensures |rest| == |cs| && j <= i + 1 && Sweeping(f0, problem, cs, rest, i + 1, j, true, imported)
      ensures Reduced(tr, ca0, cs[..i] + [cs[i]], rest[..j])
    {
      hide Inv, Complete, Sweeping, ListedAs, KeepsOthers, Reduced;
      SweepDrop(f0, problem, cs, rest0, i, j0, true, imported);
      SweepKeep(f0, problem, cs, rest0, i, j0, true, imported);
      rest, j := rest0, j0;
      var cr := rest[i];
      StoredLive(tr, db, dirt, problem, qhead, cr, true, imported);
      InvBounds(tr, db, dirt, problem, qhead);
      var c := db.ca[cr];
      var worthless: bool := *;
      if |c.lits| > 2 && !Locked(tr, c, cr) && worthless {
        CompleteDelete(tr, problem, clauses, cr);
        ReducedDrop(tr, ca0, cs[..i], rest[..j], cr);
        RemoveClause(cr);
      } else {
        ReducedKeep(tr, ca0, cs[..i], rest[..j], cr);
        rest := rest[j := rest[i]];
        j := j + 1;
      }
    }

    /** Forgets part of the learnt clauses and of the imported clauses. Binary clauses and reasons
        stay, and so does the trail. */
    method ReduceLists()
      requires Core(qhead)
      modifies this`tr, this`db, this`dirt, this`problem, this`learnts, this`unaryWatchedClauses
      ensures Core(qhead) && tr == old(tr) && problem.clauses == old(problem).clauses
      ensures Reduced(tr, old(db).ca, old(learnts), learnts)
    {
      hide Inv, Complete, ListedAs, KeepsOthers, Assumed, Ordered, Inverse, Reduced;
      ghost var f0 := problem;
      learnts := ReduceList(learnts, false);
      RemoveOthers(f0, problem, true, false, clauses, learnts, unaryWatchedClauses);
      if * {
        ghost var f1 := problem;
        unaryWatchedClauses := ReduceList(unaryWatchedClauses, true);
        RemoveOthers(f1, problem, true, true, clauses, learnts, unaryWatchedClauses);
      }
    }

    // ---------- learning ----------

    /** Stores a clause at the end of the arena. */
    method AllocClause(c: ClauseRec) returns (cr: nat)
      modifies this`db, this`problem
      ensures cr == old(db).next && db == Allocated(old(db), c, ClauseWords(c)) && problem == Storing(old(problem), cr, c)
    {
      cr := db.next;
      db := db.(ca := db.ca[cr := c], next := db.next + ClauseWords(c));
      problem := Storing(problem, cr, c);
    }

    method AttachClause(cr: nat)
      requires cr in db.ca && |db.ca[cr].lits| >= 2
      requires db.ca[cr].lits[0].Neg() in db.long && db.ca[cr].lits[1].Neg() in db.long
      requires db.ca[cr].lits[0].Neg() in db.bin && db.ca[cr].lits[1].Neg() in db.bin
      modifies this`db
      ensures db == WithAttached(old(db), cr) && db.ca == old(db).ca
    {
      var c := db.ca[cr].lits;
      var p, q := c[0].Neg(), c[1].Neg();
      if |c| == 2 {
        db := db.(bin := db.bin[p := db.bin[p] + [Watcher(cr, c[1])]]);
        db := db.(bin := db.bin[q := db.bin[q] + [Watcher(cr, c[0])]]);
      } else {
        db := db.(long := db.long[p := db.long[p] + [Watcher(cr, c[1])]]);
        db := db.(long := db.long[q := db.long[q] + [Watcher(cr, c[0])]]);
      }
    }

    /** Backjumps, stores the learnt clause and enqueues its first literal. */
    method LearnLong(learnt: seq<Lit>, bt: nat)
      requires Core(Top(tr)) && dirt == Dirt([], [], []) && Learnt(tr, learnt, bt) && Entails(problem.clauses, learnt)
      requires |learnt| > 1
      modifies this`tr, this`db, this`qhead, this`polarity, this`learnts, this`problem, order
      ensures Core(qhead) && problem.clauses == old(problem).clauses
      ensures old(tr).Wf(|old(tr).assigns|) && bt < |old(tr).lim| && old(tr).Cancel(bt).IsUndef(learnt[0])
      ensures tr == old(tr).Cancel(bt).Push(learnt[0], Some(old(db).next))
    {
      hide Inv, Learnt, Assumed, Recorded, Ordered, Inverse, WithAttached;
      LearnLongOk(tr, db, problem, clauses, learnts, unaryWatchedClauses, assumptions, learnt, bt);
      CancelUntil(bt);
      var cr := StoreLearnt(learnt);
      UncheckedEnqueue(learnt[0], Some(cr));
    }

    method StoreLearnt(learnt: seq<Lit>) returns (cr: nat)
      requires |learnt| >= 2
      requires learnt[0].Neg() in db.long && learnt[1].Neg() in db.long && learnt[0].Neg() in db.bin && learnt[1].Neg() in db.bin
      modifies this`db, this`problem, this`learnts
      ensures cr == old(db).next && learnts == old(learnts) + [cr] && problem == Storing(old(problem), cr, LearntRec(learnt))
      ensures db == WithAttached(Allocated(old(db), LearntRec(learnt), ClauseWords(LearntRec(learnt))), cr)
    {
      cr := AllocClause(LearntRec(learnt));
      learnts := learnts + [cr];
      AttachClause(cr);
    }

    method LearnUnitClause(learnt: seq<Lit>, bt: nat)
      requires Core(Top(tr)) && dirt == Dirt([], [], []) && Learnt(tr, learnt, bt) && Entails(problem.clauses, learnt)
      requires |learnt| == 1
      modifies this`tr, this`qhead, this`polarity, order
      ensures Core(qhead)
      ensures old(tr).Wf(|old(tr).assigns|) && bt < |old(tr).lim| && old(tr).Cancel(bt).IsUndef(learnt[0])
      ensures tr == old(tr).Cancel(bt).Push(learnt[0], None)
    {
      hide Inv, BaseOk, PropOk, Learnt, Assumed, Recorded, Ordered, Inverse;
      ghost var n := |tr.assigns|;
      NextIsFresh(tr, db, dirt, problem, Top(tr));
      BaseFromInv(tr, db, dirt, problem, Top(tr));
      BelowTop(tr, learnt, bt);
      LearnRecorded(tr, n, problem, clauses, learnts, unaryWatchedClauses, learnt, bt, db.next);
      LearnAssumed(tr, n, assumptions, learnt, bt, None);
      LearnUnit(tr, db, n, problem, learnt);
      CancelUntil(bt);
      UncheckedEnqueue(learnt[0], None);
      InvFromBase(tr, db, problem, qhead);
    }

    /** One conflict above level 0: analysis, backjump, learning. The search measure goes up. */
    method HandleConflict(confl: nat, ghost top: nat)
      requires Core(Top(tr)) && dirt == Dirt([], [], []) && Conflicting(tr, db.ca, confl) && 0 < |tr.lim|
      requires LevelsBounded(tr, |assumptions|, top)
      modifies this`tr, this`db, this`qhead, this`polarity, this`learnts, this`problem, order
      modifies this`seen, this`analyzeToclear, this`permDiff, this`flag, this`varInc
      ensures Core(qhead) && problem.clauses == old(problem).clauses
      ensures old(tr).Wf(|old(tr).assigns|) && tr.Wf(|tr.assigns|) && |tr.assigns| == |old(tr).assigns|
      ensures TrailMeasure(old(tr), top) < TrailMeasure(tr, top) && LevelsBounded(tr, |assumptions|, top)
    {
      hide Inv, BaseOk, PropOk, Learnt, Assumed, Recorded, Ordered, Inverse, Conflicting, SameMembers, LevelsUsed, TrailMeasure,
           Asserting, UipVars, UpperIn, MinimisedIn, BinaryMinimised, SecondExchanged, VarsOf, Entails, Complete, Lbd;
      ghost var t0 := tr;
      BaseFromInv(tr, db, dirt, problem, Top(tr));
      SizedBase(tr, db, |tr.assigns|, problem);
      InvBounds(tr, db, dirt, problem, Top(tr));
      ghost var members := order.indices;
      var learnt, bt;
      ghost var uip, small, trimmed;
      learnt, bt, uip, small, trimmed := Analyze(confl);
      SameMembersAre(order.heap, members, order.indices);
      InvFromBase(tr, db, problem, Top(tr));
      BelowTop(tr, learnt, bt);
      ghost var from: Option<nat> := if |learnt| == 1 then None else Some(db.next);
      if |learnt| == 1 {
        LearnUnitClause(learnt, bt);
      } else {
        LearnLong(learnt, bt);
      }
      LevelsFit(t0, |t0.assigns|, |assumptions|, top);
      LearnMeasure(t0, |t0.assigns|, top, |assumptions|, bt, learnt[0], from);
    }

    // ---------- clauses from other threads ----------

    method ParallelImportUnaryClauses(units: seq<Lit>)
      requires Core(qhead) && tr.lim == []
      requires forall i :: 0 <= i < |units| ==> units[i].v < |tr.assigns| && Entails(problem.clauses, [units[i]])
      modifies this`tr
      ensures Core(qhead) && tr.lim == [] && Grows(old(tr), tr)
      ensures forall i :: 0 <= i < |units| ==> !tr.IsUndef(units[i])
      ensures tr == WithUnits(old(tr), units)
    {
      hide Inv, Core, Entails, Grows, WithUnits;
      ghost var t0 := tr;
      CoreTrail(qhead);
      SameReasonsGrow(t0, tr, |tr.assigns|);
      NoUnits(t0, units);
      for i := 0 to |units|
        invariant Core(qhead) && tr.lim == [] && Grows(t0, tr) && |tr.assigns| == |t0.assigns|
        invariant forall k :: 0 <= k < i ==> !tr.IsUndef(units[k])
        invariant tr == WithUnits(t0, units[..i])
      {
        ghost var t1 := tr;
        OneMoreUnit(t0, units, i);
        ImportUnit(units[i]);
        GrowsTransitive(t0, t1, tr);
      }
      assert units[..|units|] == units;
    }

    method ImportUnit(l: Lit)
      requires Core(qhead) && tr.lim == [] && l.v < |tr.assigns| && Entails(problem.clauses, [l])
      modifies this`tr
      ensures Core(qhead) && tr.lim == [] && Grows(old(tr), tr)
      ensures tr == if old(tr).IsUndef(l) then old(tr).Push(l, None) else old(tr)
      ensures !tr.IsUndef(l) && forall p: Lit :: !old(tr).IsUndef(p) ==> !tr.IsUndef(p)
    {
      hide Inv, Assumed, Recorded, Entails, Grows, Ordered, Inverse;
      InvBounds(tr, db, dirt, problem, qhead);
      SameReasonsGrow(tr, tr, |tr.assigns|);
      if tr.assigns[l.v] == LUndef {
        EnqueueRoot(tr, db, dirt, problem, qhead, l);
        PushGrows(tr, |tr.assigns|, l, None);
        RecordedPush(tr, |tr.assigns|, problem, clauses, learnts, unaryWatchedClauses, l, None);
        AssumedPush(tr, |tr.assigns|, assumptions, l, None);
        UncheckedEnqueue(l, None);
      }
    }

    /** Stores received clauses, one-watched unless they are short. True means that the problem
        was refuted elsewhere, as an empty clause says; those before it are stored. */
    method ParallelImportClauses(received: seq<seq<Lit>>) returns (refuted: bool)
      requires Core(qhead) && tr.lim == []
      requires forall i :: 0 <= i < |received| ==> ReceivedClause(received[i], |tr.assigns|, problem.clauses)
      modifies this`db, this`problem, this`unaryWatchedClauses
      ensures Core(qhead) && problem.clauses == old(problem).clauses
      ensures refuted ==> Unsat(problem.clauses)
      ensures refuted <==> [] in received
      ensures Taken(old(db).ca, old(unaryWatchedClauses), db.ca, unaryWatchedClauses, BeforeEmpty(received), tr, qhead, plingeling)
    {
      hide Core, ReceivedClause, Taken;
      ghost var ca0, crs0 := db.ca, unaryWatchedClauses;
      NothingTaken(ca0, crs0, tr, qhead, plingeling);
      for i := 0 to |received|
        invariant Core(qhead) && problem.clauses == old(problem).clauses
        invariant forall k :: i <= k < |received| ==> ReceivedClause(received[k], |tr.assigns|, problem.clauses)
        invariant [] !in received[..i] && Taken(ca0, crs0, db.ca, unaryWatchedClauses, received[..i], tr, qhead, plingeling)
      {
        assert received[..i + 1] == received[..i] + [received[i]];
        if |received[i]| == 0 {
          EmptyIsReceived(received[i], |tr.assigns|, problem);
          EmptyClauseRefutes(problem);
          BeforeEmptyAt(received, i);
          return true;
        }
        ghost var ca1, crs1 := db.ca, unaryWatchedClauses;
        ImportClause(received[i]);
        OneMoreTaken(ca0, crs0, ca1, crs1, db.ca, unaryWatchedClauses, received[..i], received[i], tr, qhead, plingeling);
      }
      assert received[..|received|] == received;
      BeforeEmptyAt(received, |received|);
      return false;
    }

    method ImportClause(c: seq<Lit>)
      requires Core(qhead) && ReceivedClause(c, |tr.assigns|, problem.clauses) && c != []
      modifies this`db, this`problem, this`unaryWatchedClauses
      ensures Core(qhead) && problem.clauses == old(problem).clauses
      ensures unaryWatchedClauses == old(unaryWatchedClauses) + [old(db).next] && old(db).next !in old(db).ca
      ensures db.ca == old(db).ca[old(db).next := ImportedRec(tr, qhead, c, plingeling)]
      ensures var r := db.ca[old(db).next];
              && r.lits == c && r.learnt && r.imported && !r.deleted && (r.oneWatched <==> !plingeling && |c| > 2)
              && c[0].v < |tr.pos| && (r.unseen <==> r.oneWatched && tr.IsFalse(c[0]) && tr.pos[c[0].v] < qhead)
    {
      hide Inv, Assumed, Recorded, Ordered, Inverse, WithAttached, WithPurgatory, Complete;
      NextIsFresh(tr, db, dirt, problem, qhead);
      var rec := ImportedRec(tr, qhead, c, plingeling);
      StoreStep(tr, db, dirt, problem, qhead, rec);
      RecordedStore(tr, problem, clauses, learnts, unaryWatchedClauses, db.next, rec);
      var cr := AllocClause(rec);
      unaryWatchedClauses := unaryWatchedClauses + [cr];
      if rec.oneWatched {
        AttachClausePurgatory(cr);
      } else {
        AttachClause(cr);
      }
    }

    method AttachClausePurgatory(cr: nat)
      requires cr in db.ca && |db.ca[cr].lits| >= 2 && db.ca[cr].lits[0].Neg() in db.unary
      modifies this`db
      ensures db == WithPurgatory(old(db), cr) && db.ca == old(db).ca
    {
      var c := db.ca[cr].lits;
      db := db.(unary := db.unary[c[0].Neg() := db.unary[c[0].Neg()] + [Watcher(cr, c[1])]]);
    }

    // ---------- the search loop ----------

    ghost predicate NegatesAssumptions(c: seq<Lit>)
      reads this`assumptions
    {
      c != [] && forall k :: 0 <= k < |c| ==> c[k].Neg() in assumptions
    }

    /** c holds the negation of a false assumption, and besides it exactly the variables of the
        assumptions from which that was propagated. */
    ghost predicate Accuses(c: seq<Lit>)
      reads this`assumptions, this`tr, this`problem
    {
      && c != [] && c[0].Neg() in assumptions && tr.IsFalse(c[0].Neg())
      && forall v :: v in VarsOf(c[1..]) <==> Blames(tr, problem, c[0].v, v)
    }

    /** Opens decision levels for the assumptions: true ones get an empty level, an unassigned one
        is the next decision, a false one ends the search with a final conflict. */
    method OpenAssumptions(ghost top: nat) returns (next: Option<Lit>, failed: bool)
      requires Core(qhead) && qhead == |tr.lits| && LevelsBounded(tr, |assumptions|, top)
      requires forall k :: 0 <= k < |assumptions| ==> assumptions[k].v < |tr.assigns|
      modifies this`tr, this`seen, this`conflict
      ensures Core(qhead) && qhead == |tr.lits| && LevelsBounded(tr, |assumptions|, top) && tr.assigns == old(tr).assigns
      ensures old(tr).Wf(|tr.assigns|) && tr.Wf(|tr.assigns|) && TrailMeasure(tr, top) == TrailMeasure(old(tr), top)
      ensures failed ==> NegatesAssumptions(conflict) && Entails(problem.clauses, conflict) && Accuses(conflict)
      ensures !failed ==> conflict == old(conflict)
      ensures !failed && next.Some? ==> |tr.lim| < |assumptions| && next.value == assumptions[|tr.lim|] && tr.IsUndef(next.value)
      ensures !failed && next.None? ==> |tr.lim| >= |assumptions|
    {
      hide Inv, Assumed, Recorded, Ordered, Inverse, LevelsBounded, TrailMeasure;
      ghost var n := |tr.assigns|;
      InvBounds(tr, db, dirt, problem, qhead);
      next := None;
      while |tr.lim| < |assumptions|
        invariant Core(qhead) && qhead == |tr.lits| && LevelsBounded(tr, |assumptions|, top) && tr.Wf(n)
        invariant |tr.assigns| == n && tr.assigns == old(tr).assigns && old(tr).Wf(n)
        invariant TrailMeasure(tr, top) == TrailMeasure(old(tr), top) && conflict == old(conflict)
        decreases |assumptions| - |tr.lim|
      {
        var p := assumptions[|tr.lim|];
        if Val(p) == LTrue {
          OpenDummy(top);
        } else if Val(p) == LFalse {
          conflict := AnalyzeFinal(p.Neg());
          return None, true;
        } else {
          return Some(p), false;
        }
      }
      return None, false;
    }

    method OpenDummy(ghost top: nat)
      requires Core(qhead) && qhead == |tr.lits| && LevelsBounded(tr, |assumptions|, top) && |tr.lim| < |assumptions|
      requires tr.IsTrue(assumptions[|tr.lim|])
      modifies this`tr
      ensures Core(qhead) && qhead == |tr.lits| && LevelsBounded(tr, |assumptions|, top) && tr == old(tr).NewLevel()
      ensures old(tr).Wf(|tr.assigns|) && tr.Wf(|tr.assigns|) && TrailMeasure(tr, top) == TrailMeasure(old(tr), top)
    {
      hide Inv, Assumed, Recorded, Ordered, Inverse, LevelsBounded, TrailMeasure;
      InvBounds(tr, db, dirt, problem, qhead);
      DummyLevel(tr, db, dirt, problem);
      DummyMeasure(tr, |tr.assigns|, |assumptions|, top);
      AssumedNext(tr, |tr.assigns|, assumptions);
      RecordedNewLevel(tr, |tr.assigns|, problem, clauses, learnts, unaryWatchedClauses);
      NewDecisionLevel();
    }

    /** Like Core, except that v may be missing from the order heap. */
    ghost predicate CoreBut(q: nat, v: nat)
      reads this, order
    {
      && Inv(tr, db, dirt, problem, q) && OrderReady() && |decision| == |polarity| == |tr.assigns|
      && (forall u: nat :: u < |decision| && decision[u] && tr.assigns[u] == LUndef && u != v ==> order.InHeap(u))
      && StampsOk() && SeenClear() && Assumed(tr, assumptions)
      && Recorded(tr, problem, clauses, learnts, unaryWatchedClauses)
    }

    /** Opens a level and decides p: the next assumption, or above the assumptions any literal. */
    method Decide(p: Lit, ghost top: nat)
      requires CoreBut(qhead, p.v) && qhead == |tr.lits| && LevelsBounded(tr, |assumptions|, top) && tr.IsUndef(p)
      requires |tr.lim| < |assumptions| ==> p == assumptions[|tr.lim|]
      modifies this`tr
      ensures Core(qhead) && LevelsBounded(tr, |assumptions|, top) && |tr.assigns| == |old(tr).assigns|
      ensures old(tr).Wf(|tr.assigns|) && tr.Wf(|tr.assigns|) && TrailMeasure(tr, top) > TrailMeasure(old(tr), top)
      ensures tr == old(tr).NewLevel().Push(p, None)
    {
      hide Inv, Assumed, Recorded, Ordered, Inverse, LevelsUsed, TrailMeasure;
      ghost var n := |tr.assigns|;
      InvBounds(tr, db, dirt, problem, qhead);
      DecideStep(tr, db, dirt, problem, p);
      DecideMeasure(tr, n, top, |assumptions|, p);
      RecordedDecide(tr, n, problem, clauses, learnts, unaryWatchedClauses, p);
      if |tr.lim| < |assumptions| {
        AssumedNext(tr, n, assumptions);
      } else {
        AssumedDecide(tr, n, assumptions, p);
      }
      NewDecisionLevel();
      UncheckedEnqueue(p, None);
    }

    /** Backtracks to level 0. */
    method Restart(ghost q: nat)
      requires Core(q)
      modifies this`tr, this`qhead, this`polarity, order
      ensures tr.lim == [] && Core(if old(tr).lim == [] then q else qhead) && |tr.assigns| == |old(tr).assigns|
      ensures qhead == if old(tr).lim == [] then old(qhead) else |tr.lits|
      ensures old(tr).lim == [] ==> tr == old(tr)
    {
      hide Inv, Assumed, Recorded, Ordered, Inverse;
      ghost var n := |tr.assigns|;
      InvBounds(tr, db, dirt, problem, q);
      if |tr.lim| > 0 {
        RestartStep(tr, db, dirt, problem, q, 0);
        AssumedCancel(tr, n, assumptions, 0);
        RecordedCancel(tr, n, problem, clauses, learnts, unaryWatchedClauses, 0);
      }
      CancelUntil(0);
    }

    /** At level 0: takes in what other threads have sent. True means that they refuted the problem. */
    method Import() returns (refuted: bool)
      requires Core(qhead) && tr.lim == [] && InboxOk(inbox, |tr.assigns|, problem.clauses)
      modifies this`tr, this`db, this`problem, this`unaryWatchedClauses, this`inbox
      ensures Core(qhead) && Grows(old(tr), tr) && problem.clauses == old(problem).clauses
      ensures InboxOk(inbox, |tr.assigns|, problem.clauses)
      ensures refuted ==> Unsat(problem.clauses)
      ensures old(inbox) == [] ==> inbox == [] && !refuted && tr == old(tr) && db == old(db) && unaryWatchedClauses == old(unaryWatchedClauses)
      ensures old(inbox) != [] ==>
                && inbox == old(inbox)[1..] && (refuted <==> [] in old(inbox)[0].clauses)
                && TakesUnits(old(tr), old(inbox)[0].units, tr)
                && Taken(old(db).ca, old(unaryWatchedClauses), db.ca, unaryWatchedClauses, BeforeEmpty(old(inbox)[0].clauses), tr, qhead, plingeling)
    {
      hide Inv, Assumed, Recorded, Ordered, Inverse, Entails, ReceivedClause, Grows, Taken, Complete;
      if inbox == [] {
        InvBounds(tr, db, dirt, problem, qhead);
        SameReasonsGrow(tr, tr, |tr.assigns|);
        return false;
      }
      assert Importable(inbox[0], |tr.assigns|, problem.clauses);
      CoreTrail(qhead);
      var batch := inbox[0];
      inbox := inbox[1..];
      ghost var t0 := tr;
      ParallelImportUnaryClauses(batch.units);
      GrowsSize(t0, tr);
      refuted := ParallelImportClauses(batch.clauses);
    }

    /** The state at the head of the search loop. */
    ghost predicate Searching(top: nat)
      reads this, order
    {
      && Core(qhead) && LevelsBounded(tr, |assumptions|, top) && InboxOk(inbox, |tr.assigns|, problem.clauses)
      && ok && conflict == [] && forall k :: 0 <= k < |assumptions| ==> assumptions[k].v < |tr.assigns|
    }

    /** What a finished search has shown. */
    ghost predicate Concluded(status: LBool)
      reads this`tr, this`problem, this`conflict, this`assumptions, this`decision, this`qhead
    {
      match status
      case LUndef => conflict == [] && tr.lim == [] && qhead == |tr.lits|
      case LFalse => if conflict == [] then Unsat(problem.clauses)
                     else NegatesAssumptions(conflict) && Entails(problem.clauses, conflict) && Accuses(conflict)
      case LTrue =>
        && qhead == |tr.lits| && |tr.lim| >= |assumptions|
        && forall v: nat :: v < |decision| && decision[v] ==> tr.Assigned(v)
    }

    /** After a propagation without conflict: restart, simplify, reduce, and decide. */
    method NoConflict(ghost top: nat) returns (status: Option<LBool>, ghost q: nat)
      requires Searching(top) && qhead == |tr.lits|
      modifies this`tr, this`db, this`dirt, this`qhead, this`polarity, this`problem, this`ok, order
      modifies this`clauses, this`learnts, this`unaryWatchedClauses, this`seen, this`conflict
      ensures problem.clauses == old(problem).clauses && |tr.assigns| == |old(tr).assigns|
      ensures status.None? ==> Searching(top) && old(tr).Wf(|tr.assigns|) && tr.Wf(|tr.assigns|)
      ensures status.None? ==> TrailMeasure(tr, top) > TrailMeasure(old(tr), top)
      ensures status.Some? ==> Core(q) && Concluded(status.value)
      ensures status.Some? && !(status.value == LFalse && conflict == []) ==> q == qhead && ok
    {
      hide Sound, Assumed, Recorded, Entails, InboxOk, Grows, LevelsBounded, TrailMeasure;
      ghost var t0, n := tr, |tr.assigns|;
      SoundTrail(qhead);
      if * {
        Restart(qhead);
        q := qhead;
        return Some(LUndef), q;
      }
      SameReasonsGrow(tr, tr, n);
      if |tr.lim| == 0 {
        var consistent := Simplify();
        GrowsSize(t0, tr);
        if !consistent {
          return Some(LFalse), Top(tr);
        }
      }
      GrowsSize(t0, tr);
      SoundTrail(qhead);
      AdvanceMeasure(t0, tr, n, |assumptions|, top);
      if |learnts| > 0 {
        if * {
          ghost var t1 := tr;
          ReduceDB();
          SoundTrail(qhead);
          AdvanceMeasure(t1, tr, n, |assumptions|, top);
        }
      }
      status := NextDecision(top);
      q := qhead;
    }

    /** Opens the assumptions and decides the next literal. */
    method NextDecision(ghost top: nat) returns (status: Option<LBool>)
      requires Searching(top) && qhead == |tr.lits|
      modifies this`tr, this`seen, this`conflict, order
      ensures |tr.assigns| == |old(tr).assigns| && Core(qhead)
      ensures status.None? ==> Searching(top) && old(tr).Wf(|tr.assigns|) && tr.Wf(|tr.assigns|)
      ensures status.None? ==> TrailMeasure(tr, top) > TrailMeasure(old(tr), top)
      ensures status.Some? ==> Concluded(status.value) && status != Some(LUndef)
    {
      hide Inv, Assumed, Recorded, Ordered, Inverse, Entails, InboxOk, LevelsBounded, TrailMeasure;
      var next, failed := OpenAssumptions(top);
      if failed {
        return Some(LFalse);
      }
      if next.None? {
        ghost var random;
        next, random := PickBranchLit();
        if next.None? {
          return Some(LTrue);
        }
      }
      Decide(next.value, top);
      return None;
    }

    /** Imports at level 0, then propagates. */
    method Advance(ghost top: nat) returns (refuted: bool, confl: Option<nat>)
      requires Searching(top)
      modifies this`tr, this`db, this`dirt, this`qhead, this`problem, this`unaryWatchedClauses, this`inbox
      ensures problem.clauses == old(problem).clauses && |tr.assigns| == |old(tr).assigns|
      ensures InboxOk(inbox, |tr.assigns|, problem.clauses) && tr.lim == old(tr).lim
      ensures Passed(old(inbox), inbox, if old(tr).lim == [] then 1 else 0)
      ensures refuted ==> Core(qhead) && Unsat(problem.clauses)
      ensures refuted <==> old(tr).lim == [] && old(inbox) != [] && [] in old(inbox)[0].clauses
      ensures !refuted ==> Core(if confl.None? then qhead else Top(tr)) && Grows(old(tr), tr) && dirt == Dirt([], [], [])
      ensures !refuted && confl.None? ==> qhead == |tr.lits|
      ensures !refuted && confl.Some? ==> Conflicting(tr, db.ca, confl.value)
    {
      hide Sound, Assumed, Recorded, Entails, InboxOk, Grows, LevelsBounded, Conflicting, AllStable;
      ghost var t0 := tr;
      SoundTrail(qhead);
      SameReasonsGrow(tr, tr, |tr.assigns|);
      if |tr.lim| == 0 {
        refuted := Import();
        GrowsSize(t0, tr);
        if refuted {
          return true, None;
        }
      }
      ghost var t1 := tr;
      confl := PropagateCore();
      GrowsTransitive(t0, t1, tr);
      GrowsSize(t0, tr);
      return false, confl;
    }

    /** One round of the search loop: either the search is over or the measure has gone up. */
    method Round(ghost top: nat) returns (status: Option<LBool>, ghost q: nat)
      requires Searching(top)
      modifies this`tr, this`db, this`dirt, this`qhead, this`polarity, this`problem, this`ok, order
      modifies this`clauses, this`learnts, this`unaryWatchedClauses, this`seen, this`conflict, this`inbox
      modifies this`analyzeToclear, this`permDiff, this`flag, this`varInc
      ensures problem.clauses == old(problem).clauses && |tr.assigns| == |old(tr).assigns|
      ensures status.None? ==> Searching(top) && old(tr).Wf(|tr.assigns|) && tr.Wf(|tr.assigns|)
      ensures status.None? ==> TrailMeasure(tr, top) > TrailMeasure(old(tr), top)
      ensures status.Some? ==> Core(q) && Concluded(status.value) && InboxOk(inbox, |tr.assigns|, problem.clauses)
      ensures Passed(old(inbox), inbox, if old(tr).lim == [] then 1 else 0)
      ensures status.Some? && !(status.value == LFalse && conflict == []) ==> q == qhead && ok
    {
      hide Sound, Assumed, Recorded, Entails, InboxOk, Grows, LevelsBounded, TrailMeasure, Conflicting;
      ghost var t0, n := tr, |tr.assigns|;
      SoundTrail(qhead);
      var refuted, confl := Advance(top);
      if refuted {
        return Some(LFalse), qhead;
      }
      SoundTrail(if confl.None? then qhead else Top(tr));
      if confl.Some? {
        if |tr.lim| == 0 {
          SoundRefuted(confl.value);
          return Some(LFalse), Top(tr);
        }
        AdvanceMeasure(t0, tr, n, |assumptions|, top);
        HandleConflict(confl.value, top);
        return None, qhead;
      }
      AdvanceMeasure(t0, tr, n, |assumptions|, top);
      status, q := NoConflict(top);
    }

    /** Searches until a restart, a model or a conflict that cannot be resolved; at least one import
        point is passed. */
    method Search() returns (status: LBool, ghost q: nat)
      requires Core(qhead) && tr.lim == [] && ok && conflict == [] && InboxOk(inbox, |tr.assigns|, problem.clauses)
      requires forall k :: 0 <= k < |assumptions| ==> assumptions[k].v < |tr.assigns|
      modifies this`tr, this`db, this`dirt, this`qhead, this`polarity, this`problem, this`ok, order
      modifies this`clauses, this`learnts, this`unaryWatchedClauses, this`seen, this`conflict, this`inbox
      modifies this`analyzeToclear, this`permDiff, this`flag, this`varInc
      ensures problem.clauses == old(problem).clauses && |tr.assigns| == |old(tr).assigns|
      ensures Core(q) && Concluded(status) && InboxOk(inbox, |tr.assigns|, problem.clauses)
      ensures !(status == LFalse && conflict == []) ==> q == qhead && ok
      ensures Passed(old(inbox), inbox, 1)
    {
      hide Sound, Assumed, Recorded, Entails, InboxOk, TrailMeasure, LevelsBounded, Passed;
      PassedNone(inbox);
      ghost var points: nat := 0;
      ghost var n := |tr.assigns|;
      ghost var top := |assumptions| + n;
      SoundTrail(qhead);
      RootBounded(tr, |assumptions|);
      while true
        invariant Searching(top) && problem.clauses == old(problem).clauses && |tr.assigns| == n && tr.Wf(n)
        invariant Passed(old(inbox), inbox, points) && (points == 0 ==> tr.lim == [])
        decreases n * Weight(n, top, 0) - TrailMeasure(tr, top)
      {
        LevelsFit(tr, n, |assumptions|, top);
        ghost var before, more := inbox, if tr.lim == [] then 1 else 0;
        var over;
        over, q := Round(top);
        PassedMore(old(inbox), before, inbox, points, more);
        points := points + more;
        PassedAtLeast(old(inbox), inbox, points, 1);
        if over.Some? {
          return over.value, q;
        }
      }
    }

    /** What holds between two calls: a consistent state at level 0, or a refuted problem. */
    ghost predicate Valid()
      reads this, order
    {
      Sound(0) && tr.lim == [] && if ok then Core(qhead) else Unsat(problem.clauses)
    }

    ghost predicate AssumptionsHold()
      reads this`assumptions, this`model
    {
      forall a :: a in assumptions ==> Holds(ModelOf(model), a)
    }

    /** Searches again after each restart, as long as the budget allows: without an answer there has
        been one search more than restarts are allowed. */
    method SearchWithin(restarts: nat) returns (status: LBool, ghost q: nat, ghost searches: nat)
      requires Core(qhead) && tr.lim == [] && ok && conflict == [] && InboxOk(inbox, |tr.assigns|, problem.clauses)
      requires forall k :: 0 <= k < |assumptions| ==> assumptions[k].v < |tr.assigns|
      modifies this`tr, this`db, this`dirt, this`qhead, this`polarity, this`problem, this`ok, order
      modifies this`clauses, this`learnts, this`unaryWatchedClauses, this`seen, this`conflict, this`inbox
      modifies this`analyzeToclear, this`permDiff, this`flag, this`varInc
      ensures problem.clauses == old(problem).clauses && |tr.assigns| == |old(tr).assigns|
      ensures Core(q) && Concluded(status) && InboxOk(inbox, |tr.assigns|, problem.clauses)
      ensures !(status == LFalse && conflict == []) ==> q == qhead && ok
      ensures Passed(old(inbox), inbox, searches) && 1 <= searches <= restarts + 1 && (status == LUndef ==> searches == restarts + 1)
    {
      hide Sound, Assumed, Recorded, Entails, InboxOk, Passed;
      PassedNone(inbox);
      var budget := restarts;
      status, q, searches := LUndef, qhead, 0;
      while status == LUndef
        invariant Core(q) && (searches > 0 ==> Concluded(status)) && InboxOk(inbox, |tr.assigns|, problem.clauses)
        invariant !(status == LFalse && conflict == []) ==> q == qhead && ok
        invariant status == LUndef ==> tr.lim == [] && conflict == []
        invariant problem.clauses == old(problem).clauses && |tr.assigns| == |old(tr).assigns|
        invariant Passed(old(inbox), inbox, searches) && searches <= restarts + 1
        invariant if status == LUndef then searches + budget == restarts else searches > 0
        decreases budget, status == LUndef
      {
        ghost var before := inbox;
        status, q := Search();
        PassedMore(old(inbox), before, inbox, searches, 1);
        searches := searches + 1;
        if budget == 0 {
          break;
        }
        budget := budget - 1;
      }
    }

    /** Copies the values of all variables. */
    method CopyModel()
      modifies this`model
      ensures model == tr.assigns
    {
      model := [];
      for i := 0 to |tr.assigns|
        invariant model == tr.assigns[..i]
      {
        model := model + [tr.assigns[i]];
      }
    }

    /** Keeps the model or the refutation, and backtracks to level 0. */
    method Finish(status: LBool, ghost q: nat)
      requires Core(q) && Concluded(status) && model == []
      requires !(status == LFalse && conflict == []) ==> q == qhead && ok
      modifies this`tr, this`qhead, this`polarity, this`ok, this`model, order
      ensures Valid()
      ensures status == LFalse && conflict == [] ==> Unsat(problem.clauses) && !ok
      ensures status == LTrue ==> AssumptionsHold()
      ensures status == LTrue && (forall v :: 0 <= v < |decision| ==> decision[v]) ==> SatAll(ModelOf(model), problem.clauses)
      ensures status != LTrue ==> model == []
    {
      hide Inv, Assumed, Recorded, Ordered, Inverse, Entails, SatAll;
      if status == LTrue {
        ModelOk(tr, db, dirt, problem, clauses, learnts, unaryWatchedClauses, decision, assumptions);
        CopyModel();
      } else if status == LFalse && conflict == [] {
        ok := false;
      }
      Restart(q);
      WeakenInv(tr, db, dirt, problem, if old(tr).lim == [] then q else qhead);
    }

    /** Solves under the given assumptions with at most `restarts` restarts. False without a conflict
        clause means unsatisfiable; with one, that clause follows from the problem and negates
        assumptions. True comes with a model of the problem and the assumptions. */
    method Solve(assumps: seq<Lit>, restarts: nat) returns (status: LBool)
      requires Valid() && InboxOk(inbox, |tr.assigns|, problem.clauses)
      requires forall k :: 0 <= k < |assumps| ==> assumps[k].v < |tr.assigns|
      modifies this, order
      ensures Valid() && problem.clauses == old(problem).clauses && assumptions == assumps && decision == old(decision)
      ensures status == LFalse && conflict == [] ==> Unsat(problem.clauses) && !ok
      ensures status == LFalse && conflict != [] ==> NegatesAssumptions(conflict) && Entails(problem.clauses, conflict)
      ensures status == LTrue ==> AssumptionsHold()
      ensures status == LTrue && (forall v :: 0 <= v < |decision| ==> decision[v]) ==> SatAll(ModelOf(model), problem.clauses)
      ensures status != LTrue ==> model == []
      ensures status == LUndef ==> old(ok) && Passed(old(inbox), inbox, restarts + 1)
    {
      hide Sound, Assumed, Recorded, Entails, InboxOk, SatAll, Unsat, Passed, Accuses, Lbd;
      assumptions, model, conflict := assumps, [], [];
      SoundTrail(0);
      AssumedAtRoot(tr, |tr.assigns|, assumptions);
      if !ok {
        return LFalse;
      }
      ghost var q, searches;
      status, q, searches := SearchWithin(restarts);
      Finish(status, q);
    }

    // ---------- the problem ----------

    /** A new variable with preferred sign `sign`; `dvar` says whether the search may decide it. */
    method NewVar(sign: bool, dvar: bool) returns (v: nat)
      requires Valid()
      modifies this`tr, this`db, this`seen, this`permDiff, this`polarity, this`decision, order
      ensures Valid() && v == |old(tr).assigns| && tr == Wider(old(tr)) && decision == old(decision) + [dvar]
      ensures polarity == old(polarity) + [sign]
    {
      hide Core, Sound;
      v := PushVar(sign);
      SetDecisionVar(v, dvar);
    }

    lemma WidenedOk()
      requires Valid()
      ensures Inv(Wider(tr), WiderDb(db, |tr.assigns|), dirt, problem, 0) && tr.Wf(|tr.assigns|)
      ensures ok ==> Inv(Wider(tr), WiderDb(db, |tr.assigns|), dirt, problem, qhead) && Assumed(Wider(tr), assumptions)
      ensures ok ==> Recorded(Wider(tr), problem, clauses, learnts, unaryWatchedClauses)
    {
      hide Inv, Assumed, Recorded, Ordered, Inverse, Wider, WiderDb;
      WiderInv(tr, db, dirt, problem, 0);
      InvBounds(tr, db, dirt, problem, 0);
      if ok {
        WiderInv(tr, db, dirt, problem, qhead);
        WiderRecorded(tr, problem, clauses, learnts, unaryWatchedClauses);
        WiderAssumed(tr, assumptions);
      }
    }

    method PushVar(sign: bool) returns (v: nat)
      requires Valid()
      modifies this`tr, this`db, this`seen, this`permDiff, this`polarity, this`decision, order
      ensures Valid() && v == |old(tr).assigns| == |old(decision)| && tr == Wider(old(tr)) && decision == old(decision) + [false]
      ensures polarity == old(polarity) + [sign]
    {
      hide Inv, Assumed, Recorded, Ordered, Inverse, Wider, WiderDb;
      v := |tr.assigns|;
      WidenedOk();
      WiderSize(tr);
      PushTables(sign);
      db := WiderDb(db, v);
      tr := Wider(tr);
    }

    /** The tables indexed by variable grow by one entry. */
    method PushTables(sign: bool)
      requires order.Valid()
      modifies this`seen, this`permDiff, this`polarity, this`decision, order
      ensures order.Valid() && |order.activity| == |old(order.activity)| + 1 && order.indices == old(order.indices)
      ensures seen == old(seen) + [false] && permDiff == old(permDiff) + [0]
      ensures polarity == old(polarity) + [sign] && decision == old(decision) + [false]
    {
      order.AddVariable(0.0);
      seen, permDiff, polarity := seen + [false], permDiff + [0], polarity + [sign];
      decision := decision + [false];
    }

    /** Says whether the search may decide v. */
    method SetDecisionVar(v: nat, b: bool)
      requires Valid() && v < |decision|
      modifies this`decision, order
      ensures Valid() && decision == old(decision)[v := b]
    {
      hide Inv, Assumed, Recorded, Ordered, Inverse;
      decision := decision[v := b];
      InsertVarOrder(v);
    }

    /** Adds a clause to the problem at level 0. False means that the problem has become, or was,
        unsatisfiable. */
    method AddClause(ps: seq<Lit>) returns (r: bool)
      requires Valid() && forall i :: 0 <= i < |ps| ==> ps[i].v < |tr.assigns|
      modifies this`tr, this`db, this`dirt, this`qhead, this`problem, this`ok, this`clauses
      ensures Valid() && problem.clauses == old(problem).clauses + {ps} && r == ok
    {
      hide Inv, Assumed, Recorded, Ordered, Inverse, Normalised, Sorted, SameLits;
      if !ok {
        AddedInv(tr, db, dirt, problem, 0, ps);
        AddedUnsat(problem, ps);
        problem := Adding(problem, ps);
        return false;
      }
      var d := SortLits(ps);
      SameRange(ps, d, |tr.assigns|);
      var kept, redundant := Normalise(tr, d);
      if redundant {
        AddRedundant(ps, d);
        r := true;
      } else if |kept| == 0 {
        AddEmpty(ps, d);
        r := false;
      } else if |kept| == 1 {
        r := AddUnit(ps, d, kept);
      } else {
        AddLong(ps, d, kept);
        r := true;
      }
    }

    /** The clause adds nothing: only the record of the problem changes. */
    ghost method AddRedundant(ps: seq<Lit>, d: seq<Lit>)
      requires Valid() && ok && SameLits(ps, d) && exists l :: l in d && (tr.IsTrue(l) || l.Neg() in d)
      modifies this`problem
      ensures Valid() && problem == Adding(old(problem), ps)
    {
      hide Inv, Assumed, ListedAs, Complete, Ordered, Inverse;
      InvBounds(tr, db, dirt, problem, 0);
      AddedInv(tr, db, dirt, problem, 0, ps);
      AddedInv(tr, db, dirt, problem, qhead, ps);
      RedundantAdds(tr, problem, clauses, ps, d);
      AddedListed(problem, ps, clauses, learnts, unaryWatchedClauses);
      problem := Adding(problem, ps);
    }

    /** Every literal is false at level 0: the problem is refuted. */
    method AddEmpty(ps: seq<Lit>, ghost d: seq<Lit>)
      requires Valid() && ok && SameLits(ps, d) && Normalised(tr, d, [], |d|)
      modifies this`problem, this`ok
      ensures Valid() && problem == Adding(old(problem), ps) && !ok
    {
      hide Inv, Assumed, Recorded, Ordered, Inverse, Normalised, SameLits;
      AddedInv(tr, db, dirt, problem, 0, ps);
      EntailedBy(tr, db, dirt, problem, 0, ps, d, []);
      EmptyClauseRefutes(Adding(problem, ps));
      problem := Adding(problem, ps);
      ok := false;
    }

    /** One literal is left: it is enqueued and propagated. */
    method AddUnit(ps: seq<Lit>, ghost d: seq<Lit>, kept: seq<Lit>) returns (r: bool)
      requires Valid() && ok && SameLits(ps, d) && Normalised(tr, d, kept, |d|) && |kept| == 1
      modifies this`tr, this`db, this`dirt, this`qhead, this`problem, this`ok
      ensures Valid() && problem == Adding(old(problem), ps) && r == ok
    {
      hide Inv, Assumed, Recorded, Ordered, Inverse, Normalised, SameLits, Conflicting, AllStable, Grows;
      EnqueueAdded(ps, d, kept);
      var confl := PropagateCore();
      InvBounds(tr, db, dirt, problem, if confl.None? then qhead else Top(tr));
      WeakenInv(tr, db, dirt, problem, if confl.None? then qhead else Top(tr));
      if confl.Some? {
        RefutedAtRoot(tr, db, dirt, problem, confl.value);
      }
      ok := confl.None?;
      r := ok;
    }

    method EnqueueAdded(ps: seq<Lit>, ghost d: seq<Lit>, kept: seq<Lit>)
      requires Valid() && ok && SameLits(ps, d) && Normalised(tr, d, kept, |d|) && |kept| == 1
      modifies this`tr, this`problem
      ensures Core(qhead) && tr.lim == [] && problem == Adding(old(problem), ps)
    {
      hide Inv, Assumed, ListedAs, Complete, Ordered, Inverse, SameLits;
      var p := kept[0];
      assert kept == [p];
      InvBounds(tr, db, dirt, problem, qhead);
      AddedInv(tr, db, dirt, problem, qhead, ps);
      EntailedBy(tr, db, dirt, problem, qhead, ps, d, kept);
      assert tr.IsUndef(p);
      EnqueueRoot(tr, db, dirt, Adding(problem, ps), qhead, p);
      UnitAdds(tr, |tr.assigns|, problem, clauses, ps, d, p);
      AddedListed(problem, ps, clauses, learnts, unaryWatchedClauses);
      AssumedPush(tr, |tr.assigns|, assumptions, p, None);
      problem := Adding(problem, ps);
      UncheckedEnqueue(p, None);
    }

    /** At least two literals are left: the clause is stored and attached. */
    method AddLong(ps: seq<Lit>, ghost d: seq<Lit>, kept: seq<Lit>)
      requires Valid() && ok && SameLits(ps, d) && Normalised(tr, d, kept, |d|) && |kept| >= 2
      modifies this`db, this`problem, this`clauses
      ensures Valid() && problem.clauses == old(problem).clauses + {ps}
    {
      hide Inv, Assumed, Recorded, Ordered, Inverse, Normalised, SameLits, WithAttached;
      var rec := ClauseRec(kept, false, false, false, false, false);
      AddLongOk(tr, db, dirt, problem, qhead, clauses, learnts, unaryWatchedClauses, ps, d, kept);
      problem := Adding(problem, ps);
      var cr := AllocClause(rec);
      clauses := clauses + [cr];
      AttachClause(cr);
      WeakenInv(tr, db, dirt, problem, qhead);
    }

    // ---------- garbage collection ----------

    /** Forwards the references in the three lists of p. */
    method RelocLit(gc: Collector, p: Lit, ghost db0: Db)
      requires gc.Valid() && gc.ca == db0.ca && p in db0.long && p in db0.bin && p in db0.unary
      requires Known(db0.ca, db0.long[p]) && Known(db0.ca, db0.bin[p]) && Known(db0.ca, db0.unary[p])
      requires MovedUpTo(gc.src, db0.long, db.long, p) && MovedUpTo(gc.src, db0.bin, db.bin, p) && MovedUpTo(gc.src, db0.unary, db.unary, p)
      modifies this`db, gc`src, gc`to, gc`next
      ensures gc.Valid() && db.ca == old(db).ca && db.next == old(db).next
      ensures var r := ToLit(ToInt(p) + 1);
              MovedUpTo(gc.src, db0.long, db.long, r) && MovedUpTo(gc.src, db0.bin, db.bin, r) && MovedUpTo(gc.src, db0.unary, db.unary, r)
    {
      hide Copying, Later, MovedWatchers, FlagsOk, Known;
      UntouchedYet(gc.src, db0.long, db.long, p);
      UntouchedYet(gc.src, db0.bin, db.bin, p);
      UntouchedYet(gc.src, db0.unary, db.unary, p);
      hide MovedUpTo;
      ghost var src0 := gc.src;
      var ws := gc.RelocWatchers(db.long[p]);
      MoveOneList(src0, gc.src, db0.long, db.long, p, ws);
      ghost var src1 := gc.src;
      var wbin := gc.RelocWatchers(db.bin[p]);
      LaterTransitive(src0, src1, gc.src);
      MoveOneList(src0, gc.src, db0.bin, db.bin, p, wbin);
      LaterMoved(src1, gc.src, db0.long, db.long[p := ws], ToLit(ToInt(p) + 1));
      ghost var src2 := gc.src;
      var wunary := gc.RelocWatchers(db.unary[p]);
      LaterTransitive(src0, src2, gc.src);
      MoveOneList(src0, gc.src, db0.unary, db.unary, p, wunary);
      LaterMoved(src2, gc.src, db0.long, db.long[p := ws], ToLit(ToInt(p) + 1));
      LaterMoved(src2, gc.src, db0.bin, db.bin[p := wbin], ToLit(ToInt(p) + 1));
      db := db.(long := db.long[p := ws], bin := db.bin[p := wbin], unary := db.unary[p := wunary]);
    }

    method RelocWatches(gc: Collector)
      requires gc.Valid() && gc.ca == db.ca
      requires AllKnown(db.ca, db.long, |tr.assigns|) && AllKnown(db.ca, db.bin, |tr.assigns|) && AllKnown(db.ca, db.unary, |tr.assigns|)
      modifies this`db, gc`src, gc`to, gc`next
      ensures gc.Valid() && MovedDb(gc.src, old(db), db) && db.ca == old(db).ca
    {
      hide Copying, FlagsOk, Known, MovedUpTo, MovedLists;
      ghost var db0 := db;
      NoneMoved(gc.src, db.long);
      NoneMoved(gc.src, db.bin);
      NoneMoved(gc.src, db.unary);
      for x := 0 to 2 * |tr.assigns|
        invariant gc.Valid() && db.ca == db0.ca && db.next == db0.next
        invariant MovedUpTo(gc.src, db0.long, db.long, ToLit(x)) && MovedUpTo(gc.src, db0.bin, db.bin, ToLit(x))
        invariant MovedUpTo(gc.src, db0.unary, db.unary, ToLit(x))
      {
        PackingRoundTrip(ToLit(x), x);
        RelocLit(gc, ToLit(x), db0);
      }
      AllMoved(gc.src, db0.long, db.long, |tr.assigns|);
      AllMoved(gc.src, db0.bin, db.bin, |tr.assigns|);
      AllMoved(gc.src, db0.unary, db.unary, |tr.assigns|);
    }

    /** Forwards the reasons of the trail entries that are copied already or locked. */
    method RelocReasons(gc: Collector)
      requires gc.Valid() && tr.Wf(|tr.assigns|) && ReasonsOk(tr, gc.ca) && ArenaOk(gc.ca, |tr.assigns|)
      modifies this`tr, gc`src, gc`to, gc`next
      ensures gc.Valid() && MovedTrail(gc.src, old(tr), tr) && Later(old(gc.src), gc.src)
    {
      ghost var t0, n := tr, |tr.assigns|;
      assert MovedPrefix(gc.src, t0, tr, 0);
      PrefixShape(gc.src, t0, tr, 0);
      hide Copying, FlagsOk, ReasonsOk, MovedPrefix;
      for i := 0 to |tr.lits|
        invariant gc.Valid() && MovedPrefix(gc.src, t0, tr, i) && Later(old(gc.src), gc.src)
        invariant tr.lits == t0.lits && tr.assigns == t0.assigns && t0.Wf(n)
      {
        RelocReason(gc, i, t0, n);
      }
      PrefixDone(gc.src, t0, tr, n);
    }

    method RelocReason(gc: Collector, i: nat, ghost t0: Trail, ghost n: nat)
      requires gc.Valid() && t0.Wf(n) && ReasonsOk(t0, gc.ca) && ArenaOk(gc.ca, n) && i < |t0.lits|
      requires MovedPrefix(gc.src, t0, tr, i) && tr.lits == t0.lits && tr.assigns == t0.assigns
      modifies this`tr, gc`src, gc`to, gc`next
      ensures gc.Valid() && MovedPrefix(gc.src, t0, tr, i + 1) && Later(old(gc.src), gc.src)
      ensures tr.lits == t0.lits && tr.assigns == t0.assigns
    {
      hide Copying, FlagsOk, ReasonsOk;
      ghost var src0 := gc.src;
      PrefixShape(gc.src, t0, tr, i);
      hide MovedPrefix;
      var v := tr.lits[i].v;
      PrefixAt(gc.src, t0, tr, n, i);
      if tr.reason[v].Some? {
        var cr := tr.reason[v].value;
        ReasonLocked(t0, tr, gc.ca, gc.src, gc.to, gc.next, n, i);
        if gc.src[cr].Moved? || Locked(tr, gc.src[cr].c, cr) {
          var d := gc.Reloc(cr);
          PrefixLater(src0, gc.src, t0, tr, i);
          PrefixStep(gc.src, t0, tr, n, i, d);
          tr := tr.(reason := tr.reason[v := Some(d)]);
        }
      } else {
        PrefixSkip(gc.src, t0, tr, n, i);
      }
    }

    /** Forwards all references: watchers, reasons and clause lists. */
    method RelocAll() returns (gc: Collector)
      requires Inv(tr, db, Dirt([], [], []), problem, qhead) && Recorded(tr, problem, clauses, learnts, unaryWatchedClauses)
      modifies this`tr, this`db, this`clauses, this`learnts, this`unaryWatchedClauses
      ensures fresh(gc) && gc.Valid() && gc.ca == old(db).ca
      ensures MovedAll(gc.src, old(tr), tr, old(db), db, old(clauses), clauses, old(learnts), learnts,
                       old(unaryWatchedClauses), unaryWatchedClauses)
    {
      RelocReady(tr, db, problem, qhead, clauses, learnts, unaryWatchedClauses);
      hide Inv, Recorded, AllKnown, Copying, FlagsOk, MovedDb, MovedTrail, MovedRefs, Later, ReasonsOk, ArenaOk;
      ghost var db0, t0, crs, ls, us := db, tr, clauses, learnts, unaryWatchedClauses;
      gc := new Collector(db.ca);
      RelocWatches(gc);
      ghost var s1 := gc.src;
      RelocReasons(gc);
      LaterDb(s1, gc.src, db0, db);
      ghost var s2 := gc.src;
      learnts := gc.RelocRefs(learnts);
      LaterDb(s2, gc.src, db0, db);
      LaterTrail(s2, gc.src, t0, tr);
      ghost var s3 := gc.src;
      clauses := gc.RelocRefs(clauses);
      LaterDb(s3, gc.src, db0, db);
      LaterTrail(s3, gc.src, t0, tr);
      LaterRefs(s3, gc.src, ls, learnts);
      ghost var s4 := gc.src;
      unaryWatchedClauses := gc.RelocRefs(unaryWatchedClauses);
      LaterDb(s4, gc.src, db0, db);
      LaterTrail(s4, gc.src, t0, tr);
      LaterRefs(s4, gc.src, ls, learnts);
      LaterRefs(s4, gc.src, crs, clauses);
    }

    /** Copies the clauses in use to a new region and forwards every reference to them. The clause
        graph and the invariant stay the same: moved says which clause went where. */
    method GarbageCollect() returns (ghost db0: Db, ghost moved: Space)
      requires Core(qhead)
      modifies this`tr, this`db, this`dirt, this`problem, this`clauses, this`learnts, this`unaryWatchedClauses
      ensures Core(qhead) && problem.clauses == old(problem).clauses && SameAssignment(old(tr), tr)
      ensures db0.ca == old(db).ca && Copying(db0.ca, moved, db.ca, db.next)
      ensures MovedAll(moved, old(tr), tr, db0, db, old(clauses), clauses, old(learnts), learnts,
                       old(unaryWatchedClauses), unaryWatchedClauses)
      ensures forall cr :: Live(db0.ca, cr) ==> exists d :: Forwards(moved, cr, d)
    {
      hide Assumed, Recorded, Copying, MovedAll, MovedDb, MovedTrail, MovedRefs, FlagsOk, Inv, Ordered, Inverse;
      ghost var t0, crs, ls, us := tr, clauses, learnts, unaryWatchedClauses;
      CleanAll();
      db0 := db;
      var gc := RelocAll();
      moved := gc.src;
      CollectedState(t0, tr, db0, db, moved, gc.to, gc.next, problem, qhead, crs, clauses, ls, learnts, us, unaryWatchedClauses, assumptions);
      MovedAllAgain(moved, t0, tr, db0, db, gc.to, gc.next, crs, clauses, ls, learnts, us, unaryWatchedClauses);
      db := db.(ca := gc.to, next := gc.next);
      problem := Rekeyed(problem, db.ca);
    }

    /** Collects when enough of the arena is wasted. */
    method CheckGarbage()
      requires Core(qhead)
      modifies this`tr, this`db, this`dirt, this`problem, this`clauses, this`learnts, this`unaryWatchedClauses
      ensures Core(qhead) && problem.clauses == old(problem).clauses && SameAssignment(old(tr), tr)
      ensures SameNamed(old(db).ca, old(clauses), db.ca, clauses) && SameNamed(old(db).ca, old(learnts), db.ca, learnts)
      ensures SameNamed(old(db).ca, old(unaryWatchedClauses), db.ca, unaryWatchedClauses)
    {
      hide Sound, Assumed, Recorded, Copying, MovedDb, MovedTrail, MovedRefs;
      NamedItself(db.ca, clauses);
      NamedItself(db.ca, learnts);
      NamedItself(db.ca, unaryWatchedClauses);
      if * {
        ghost var crs, ls, us := clauses, learnts, unaryWatchedClauses;
        ghost var db0, moved := GarbageCollect();
        CollectedNames(db0.ca, moved, db.ca, db.next, crs, clauses);
        CollectedNames(db0.ca, moved, db.ca, db.next, ls, learnts);
        CollectedNames(db0.ca, moved, db.ca, db.next, us, unaryWatchedClauses);
      }
    }

    /** Clause-database reduction, followed by a collection if need be. */
    method ReduceDB()
      requires Core(qhead)
      modifies this`tr, this`db, this`dirt, this`problem, this`clauses, this`learnts, this`unaryWatchedClauses
      ensures Core(qhead) && problem.clauses == old(problem).clauses
      ensures Grows(old(tr), tr) && tr.lits == old(tr).lits && tr.assigns == old(tr).assigns
    {
      hide Sound, Assumed, Recorded, Grows;
      SoundTrail(qhead);
      ReduceLists();
      ghost var t1 := tr;
      CheckGarbage();
      SameAssignmentGrows(t1, tr, |tr.assigns|);
    }
  }

  lemma SameReasonsReflexive(t: Trail)
    ensures SameButReasons(t, t)
  {
  }

  lemma SameReasonsTransitive(t: Trail, u: Trail, w: Trail)
    requires SameButReasons(t, u) && SameButReasons(u, w)
    ensures SameButReasons(t, w) && w.lim == u.lim == t.lim
  {
  }

  lemma SameTruth(t: Trail, u: Trail, c: seq<Lit>)
    requires SameButReasons(t, u)
    ensures HasTrue(t, c) <==> HasTrue(u, c)
  {
    assert forall l: Lit :: t.IsTrue(l) <==> u.IsTrue(l);
  }

  lemma RemoveAtRoot(t: Trail, ca: Arena, cr: nat)
    requires Live(ca, cr) && t.lim == []
    ensures Removable(t, ca[cr], cr)
  {
  }

  /** At level 0 a satisfied clause has a literal true at level 0. */
  lemma RootTrue(t: Trail, db: Db, d: Dirt, f: Problem, q: nat, c: seq<Lit>)
    requires Inv(t, db, d, f, q) && t.lim == [] && HasTrue(t, c)
    ensures exists l :: l in c && t.IsTrue(l) && l.v < |t.level| && t.level[l.v] == 0
  {
    hide DbOk, ReasonsOk, RootSound, Lazy;
    var i :| 0 <= i < |c| && t.IsTrue(c[i]);
    assert t.Levelled(c[i].v);
    assert c[i] in c;
  }

  lemma SweepEnd(f0: Problem, f: Problem, cs: seq<nat>, r: seq<nat>, j: nat, learnt: bool, imported: bool)
    requires Sweeping(f0, f, cs, r, |cs|, j, learnt, imported)
    ensures ListedAs(f, r[..j], learnt, imported) && KeepsOthers(f0, f, learnt, imported)
    ensures r[..j] + cs[|cs|..] == r[..j]
  {
    assert r[..j] + cs[|cs|..] == r[..j];
  }

  lemma NothingMarked(seen: seq<bool>)
    requires forall v :: 0 <= v < |seen| ==> !seen[v]
    ensures Marked(seen) == {}
  {
  }

  lemma AllUnmarked(seen: seq<bool>, v: nat)
    requires Marked(seen) <= {v} && v < |seen|
    ensures var seen' := seen[v := false]; forall u :: 0 <= u < |seen'| ==> !seen'[u]
  {
    assert forall u :: 0 <= u < |seen| && seen[u] ==> u in Marked(seen);
  }

  lemma BlamingSized(t: Trail, ca: Arena, seen: seq<bool>, p: Lit, blamed: seq<Lit>, done: set<nat>, index: int)
    requires Blaming(t, ca, seen, p, blamed, done, index)
    ensures |seen| == |t.assigns|
  {
  }

  lemma SameLevels(t: Trail, u: Trail)
    requires Extends(t, u)
    ensures u.lim == t.lim
  {
  }

  lemma ExtendsUnassigned(t: Trail, u: Trail)
    requires Extends(t, u) && t.Sized(|t.assigns|)
    ensures forall v: nat :: v < |u.assigns| && u.assigns[v] == LUndef ==> t.assigns[v] == LUndef
  {
    forall v: nat | v < |u.assigns| && t.assigns[v] != LUndef
      ensures u.assigns[v] != LUndef
    {
      assert t.Assigned(v) && SameVar(t, u, v);
    }
  }

  lemma RefutedAtRoot(t: Trail, db: Db, d: Dirt, f: Problem, cr: nat)
    requires Inv(t, db, d, f, Top(t)) && d == Dirt([], [], []) && Conflicting(t, db.ca, cr) && t.lim == []
    ensures Unsat(f.clauses)
  {
    hide DbOk, TrailOk, PropOk, Clean, Conflicting;
    RootConflict(t, db, |t.assigns|, f, cr);
  }

  lemma SameReasonsParts(t: Trail, u: Trail)
    requires SameButReasons(t, u)
    ensures u == t.(reason := u.reason) && |u.reason| == |t.reason| && (t.lim != [] ==> u == t) && u.assigns == t.assigns && u.lim == t.lim && u.lits == t.lits
  {
  }

  /** Sweeping one list keeps the other two. */
  lemma RemoveOthers(f0: Problem, f: Problem, learnt: bool, imported: bool, clauses: seq<nat>, learnts: seq<nat>, imports: seq<nat>)
    requires KeepsOthers(f0, f, learnt, imported)
    ensures f.clauses == f0.clauses
    ensures learnt && ListedAs(f0, clauses, false, false) ==> ListedAs(f, clauses, false, false)
    ensures (!learnt || imported) && ListedAs(f0, learnts, true, false) ==> ListedAs(f, learnts, true, false)
    ensures (!learnt || !imported) && ListedAs(f0, imports, true, true) ==> ListedAs(f, imports, true, true)
  {
    hide ListedAs;
    if learnt && ListedAs(f0, clauses, false, false) {
      KeepsListed(f0, f, learnt, imported, clauses, false, false);
    }
    if (!learnt || imported) && ListedAs(f0, learnts, true, false) {
      KeepsListed(f0, f, learnt, imported, learnts, true, false);
    }
    if (!learnt || !imported) && ListedAs(f0, imports, true, true) {
      KeepsListed(f0, f, learnt, imported, imports, true, true);
    }
  }

  lemma SameMembersAre(h: seq<nat>, a: seq<int>, b: seq<int>)
    requires SameMembers(a, b) && Inverse(h, b)
    ensures forall v: nat :: (v < |a| && a[v] >= 0) ==> v < |b| && b[v] >= 0
  {
  }

  /** What storing a long learnt clause gives, on values. */
  lemma LearnLongOk(t: Trail, db: Db, f: Problem, clauses: seq<nat>, learnts: seq<nat>, imports: seq<nat>,
                    assumptions: seq<Lit>, learnt: seq<Lit>, bt: nat)
    requires Inv(t, db, Dirt([], [], []), f, Top(t)) && Learnt(t, learnt, bt) && Entails(f.clauses, learnt) && |learnt| > 1
    requires Recorded(t, f, clauses, learnts, imports) && Assumed(t, assumptions)
    ensures t.Wf(|t.assigns|) && bt < |t.lim| && t.Cancel(bt).IsUndef(learnt[0]) && t.Cancel(bt).Sized(|t.assigns|)
    ensures var u := t.Cancel(bt).Push(learnt[0], Some(db.next)); var c := LearntRec(learnt);
            var db1 := Allocated(db, c, ClauseWords(c));
            && learnt[0].Neg() in db1.long && learnt[1].Neg() in db1.long
            && learnt[0].Neg() in db1.bin && learnt[1].Neg() in db1.bin
            && Inv(u, WithAttached(db1, db.next), Dirt([], [], []), Storing(f, db.next, c), t.lim[bt])
            && Recorded(u, Storing(f, db.next, c), clauses, learnts + [db.next], imports) && Assumed(u, assumptions)
  {
    hide Inv, BaseOk, PropOk, Learnt, Assumed, Recorded, WithAttached;
    var n := |t.assigns|;
    var c := LearntRec(learnt);
    NextIsFresh(t, db, Dirt([], [], []), f, Top(t));
    BaseFromInv(t, db, Dirt([], [], []), f, Top(t));
    BelowTop(t, learnt, bt);
    LearnRecorded(t, n, f, clauses, learnts, imports, learnt, bt, db.next);
    LearnAssumed(t, n, assumptions, learnt, bt, Some(db.next));
    LearnStep(t, db, n, f, learnt, bt, ClauseWords(c));
    InvFromBase(t.Cancel(bt).Push(learnt[0], Some(db.next)), WithAttached(Allocated(db, c, ClauseWords(c)), db.next),
                Storing(f, db.next, c), t.lim[bt]);
  }

  lemma NextIsFresh(t: Trail, db: Db, d: Dirt, f: Problem, q: nat)
    requires Inv(t, db, d, f, q)
    ensures db.next !in f.store && t.Wf(|t.assigns|) && ArenaOk(db.ca, |t.assigns|)
  {
    hide ListsOk, Attached, TrailOk, PropOk, Lazy, DirtOk;
    assert Stored(db.ca, f.store);
    assert t.Wf(|t.assigns|) by {
      InvBounds(t, db, d, f, q);
    }
  }

  lemma RecordedPush(t: Trail, n: nat, f: Problem, clauses: seq<nat>, learnts: seq<nat>, imports: seq<nat>, p: Lit, from: Option<nat>)
    requires t.Wf(n) && p.v < n && t.IsUndef(p) && Recorded(t, f, clauses, learnts, imports)
    ensures Recorded(t.Push(p, from), f, clauses, learnts, imports)
  {
    hide ListedAs, Complete;
    CompletePush(t, n, f, clauses, p, from);
  }

  lemma RecordedNewLevel(t: Trail, n: nat, f: Problem, clauses: seq<nat>, learnts: seq<nat>, imports: seq<nat>)
    requires t.Wf(n) && Recorded(t, f, clauses, learnts, imports)
    ensures Recorded(t.NewLevel(), f, clauses, learnts, imports)
  {
    hide ListedAs, Complete;
    CompleteNewLevel(t, n, f, clauses);
  }

  lemma GrowsSize(t: Trail, u: Trail)
    requires Grows(t, u)
    ensures |u.assigns| == |t.assigns| && u.lim == t.lim
  {
  }

  lemma AdvanceMeasure(t: Trail, u: Trail, n: nat, a: nat, top: nat)
    requires t.Wf(n) && u.Wf(n) && Grows(t, u) && LevelsBounded(t, a, top)
    ensures LevelsBounded(u, a, top) && TrailMeasure(t, top) <= TrailMeasure(u, top)
  {
    hide TrailMeasure, LevelsBounded, Grows;
    GrowsBounded(t, u, a, top);
    GrowsMeasure(t, u, n, top);
  }

  lemma RootBounded(t: Trail, a: nat)
    requires t.lim == []
    ensures LevelsBounded(t, a, a + |t.assigns|)
  {
  }

  /** A finished search leaves a model of the assumptions, and of the problem when every variable
      may be decided. */
  lemma ModelOk(t: Trail, db: Db, d: Dirt, f: Problem, clauses: seq<nat>, learnts: seq<nat>, imports: seq<nat>,
                decision: seq<bool>, assumptions: seq<Lit>)
    requires Inv(t, db, d, f, |t.lits|) && Recorded(t, f, clauses, learnts, imports) && Assumed(t, assumptions)
    requires |t.lim| >= |assumptions| && |decision| == |t.assigns|
    requires forall v: nat :: v < |decision| && decision[v] ==> t.Assigned(v)
    ensures forall a :: a in assumptions ==> Holds(ModelOf(t.assigns), a)
    ensures (forall v :: 0 <= v < |decision| ==> decision[v]) ==> SatAll(ModelOf(t.assigns), f.clauses)
  {
    hide Inv, ListedAs, Complete;
    forall a | a in assumptions
      ensures Holds(ModelOf(t.assigns), a)
    {
      var k :| 0 <= k < |assumptions| && assumptions[k] == a;
      assert t.IsTrue(assumptions[k]);
      TrueMeansAgree(ModelOf(t.assigns), t, a);
      ModelAgrees(t, a.v);
    }
    if forall v :: 0 <= v < |decision| ==> decision[v] {
      FoundModel(t, db, d, f, clauses);
    }
  }

  /** The invariant holds of an empty solver. */
  lemma EmptyInv()
    ensures Inv(Trail([], [], [], [], [], []), Db(map[], 0, map[], map[], map[]), Dirt([], [], []), Problem({}, map[]), 0)
    ensures Recorded(Trail([], [], [], [], [], []), Problem({}, map[]), [], [], [])
    ensures Assumed(Trail([], [], [], [], [], []), [])
  {
  }

  /** At level 0 less may be claimed to be propagated. */
  lemma WeakenInv(t: Trail, db: Db, d: Dirt, f: Problem, q: nat)
    requires Inv(t, db, d, f, q) && t.lim == []
    ensures Inv(t, db, d, f, 0)
  {
    hide DbOk, TrailOk, PropOk, Lazy, DirtOk;
    Weaken(t, db, q, 0);
  }

  lemma SameRange(c: seq<Lit>, d: seq<Lit>, n: nat)
    requires SameLits(c, d) && forall i :: 0 <= i < |c| ==> c[i].v < n
    ensures forall i :: 0 <= i < |d| ==> d[i].v < n
  {
    forall i | 0 <= i < |d|
      ensures d[i].v < n
    {
      assert d[i] in c;
    }
  }

  lemma AddedListed(f: Problem, c: seq<Lit>, clauses: seq<nat>, learnts: seq<nat>, imports: seq<nat>)
    ensures ListedAs(f, clauses, false, false) ==> ListedAs(Adding(f, c), clauses, false, false)
    ensures ListedAs(f, learnts, true, false) ==> ListedAs(Adding(f, c), learnts, true, false)
    ensures ListedAs(f, imports, true, true) ==> ListedAs(Adding(f, c), imports, true, true)
  {
    assert forall cr, l, i :: StoredAs(Adding(f, c), cr, l, i) <==> StoredAs(f, cr, l, i);
  }

  lemma RedundantAdds(t: Trail, f: Problem, clauses: seq<nat>, c: seq<Lit>, d: seq<Lit>)
    requires t.Wf(|t.assigns|) && t.lim == [] && Complete(t, f, clauses) && SameLits(c, d)
    requires exists l :: l in d && (t.IsTrue(l) || l.Neg() in d)
    ensures Complete(t, Adding(f, c), clauses)
  {
    hide Complete;
    var l :| l in d && (t.IsTrue(l) || l.Neg() in d);
    assert l in c && (l.Neg() in d ==> l.Neg() in c);
    if t.IsTrue(l) {
      SatisfiedAdds(t, |t.assigns|, f, clauses, c, l);
    } else {
      TautologyAdds(t, f, clauses, c, l);
    }
  }

  lemma EntailedBy(t: Trail, db: Db, d: Dirt, f: Problem, q: nat, c: seq<Lit>, sorted: seq<Lit>, kept: seq<Lit>)
    requires Inv(t, db, d, f, q) && t.lim == [] && SameLits(c, sorted) && Normalised(t, sorted, kept, |sorted|)
    ensures Entails(Adding(f, c).clauses, kept)
  {
    hide DbOk, PropOk, Lazy, DirtOk, ReasonsOk, Normalised, SameLits, Entails;
    NormalisedEntailed(t, |t.assigns|, f, c, sorted, kept);
  }

  lemma NormalisedClause(t: Trail, d: seq<Lit>, kept: seq<Lit>, i: nat)
    requires Normalised(t, d, kept, i) && |kept| >= 2
    ensures ClauseOk(ClauseRec(kept, false, false, false, false, false), |t.assigns|)
    ensures Quiet(t, ClauseRec(kept, false, false, false, false, false))
  {
  }

  /** What storing a problem clause gives, on values. */
  lemma AddLongOk(t: Trail, db: Db, d: Dirt, f: Problem, q: nat, clauses: seq<nat>, learnts: seq<nat>, imports: seq<nat>,
                  c: seq<Lit>, sorted: seq<Lit>, kept: seq<Lit>)
    requires Inv(t, db, d, f, q) && t.lim == [] && Recorded(t, f, clauses, learnts, imports)
    requires SameLits(c, sorted) && Normalised(t, sorted, kept, |sorted|) && |kept| >= 2
    ensures var rec := ClauseRec(kept, false, false, false, false, false); var db1 := Allocated(db, rec, ClauseWords(rec));
            var f' := Storing(Adding(f, c), db.next, rec);
            && kept[0].Neg() in db1.long && kept[1].Neg() in db1.long && kept[0].Neg() in db1.bin && kept[1].Neg() in db1.bin
            && Inv(t, WithAttached(db1, db.next), d, f', q) && Recorded(t, f', clauses + [db.next], learnts, imports)
  {
    hide Inv, ListedAs, Complete, Normalised, SameLits, WithAttached, Entails, Quiet, ClauseOk;
    var rec := ClauseRec(kept, false, false, false, false, false);
    AddedInv(t, db, d, f, q, c);
    EntailedBy(t, db, d, f, q, c, sorted, kept);
    NormalisedClause(t, sorted, kept, |sorted|);
    StoreStep(t, db, d, Adding(f, c), q, rec);
    NextIsFresh(t, db, d, f, q);
    StoredAdds(t, f, clauses, c, sorted, kept, db.next);
    AddedListed(f, c, clauses, learnts, imports);
    StoreListed(Adding(f, c), clauses, false, false, db.next, rec);
    StoreListed(Adding(f, c), learnts, true, false, db.next, rec);
    StoreListed(Adding(f, c), imports, true, true, db.next, rec);
  }

  lemma UntouchedYet(src: Space, lists: Lists, lists': Lists, p: Lit)
    requires MovedUpTo(src, lists, lists', p) && p in lists
    ensures p in lists' && lists'[p] == lists[p]
  {
  }

  lemma LaterMoved(src: Space, src': Space, lists: Lists, lists': Lists, p: Lit)
    requires MovedUpTo(src, lists, lists', p) && Later(src, src')
    ensures MovedUpTo(src', lists, lists', p)
  {
    forall r | r in lists && ToInt(r) < ToInt(p)
      ensures MovedWatchers(src', lists[r], lists'[r])
    {
      LaterWatchers(src, src', lists[r], lists'[r]);
    }
  }

  lemma PrefixShape(src: Space, t: Trail, t': Trail, i: nat)
    requires MovedPrefix(src, t, t', i)
    ensures t' == t.(reason := t'.reason) && |t'.reason| == |t.reason|
  {
  }

  lemma PrefixAt(src: Space, t: Trail, t': Trail, n: nat, i: nat)
    requires t.Wf(n) && MovedPrefix(src, t, t', i) && i < |t.lits|
    ensures t.lits[i].v < n && t'.reason[t.lits[i].v] == t.reason[t.lits[i].v]
  {
    assert t.IsTrue(t.lits[i]);
  }

  lemma MovedAllAgain(src: Space, t: Trail, t': Trail, db: Db, db1: Db, to: Arena, next: nat,
                      crs: seq<nat>, crs': seq<nat>, ls: seq<nat>, ls': seq<nat>, us: seq<nat>, us': seq<nat>)
    requires MovedAll(src, t, t', db, db1, crs, crs', ls, ls', us, us')
    ensures MovedAll(src, t, t', db, db1.(ca := to, next := next), crs, crs', ls, ls', us, us')
  {
  }

  lemma RelocReady(t: Trail, db: Db, f: Problem, q: nat, clauses: seq<nat>, learnts: seq<nat>, imports: seq<nat>)
    requires Inv(t, db, Dirt([], [], []), f, q) && Recorded(t, f, clauses, learnts, imports)
    ensures t.Wf(|t.assigns|) && ReasonsOk(t, db.ca) && ArenaOk(db.ca, |t.assigns|) && FlagsOk(db.ca)
    ensures AllKnown(db.ca, db.long, |t.assigns|) && AllKnown(db.ca, db.bin, |t.assigns|) && AllKnown(db.ca, db.unary, |t.assigns|)
    ensures forall i :: 0 <= i < |clauses| ==> clauses[i] in db.ca
    ensures forall i :: 0 <= i < |learnts| ==> learnts[i] in db.ca
    ensures forall i :: 0 <= i < |imports| ==> imports[i] in db.ca
  {
    hide AllKnown, FlagsOk, ListedAs, Complete, RootSound, PropOk, Lazy, ListsOk, Attached;
    DbKnown(db, |t.assigns|, f);
    ListedKnown(db.ca, f, clauses, false, false);
    ListedKnown(db.ca, f, learnts, true, false);
    ListedKnown(db.ca, f, imports, true, true);
  }

  lemma EmptyHeap(heap: seq<nat>, indices: seq<int>)
    requires Inverse(heap, indices) && heap == []
    ensures forall v :: 0 <= v < |indices| ==> indices[v] < 0
  {
  }

  lemma RestMarked(learnt: seq<Lit>)
    requires |learnt| >= 1
    ensures VarsOf(learnt[1..]) <= VarsOf(learnt)
  {
    VarsOfTail(learnt);
  }

  lemma LearntEntailed(t: Trail, f: Problem, learnt: seq<Lit>, bt: nat)
    requires Learnt(t, learnt, bt) && Cut(f, t, VarsOf(learnt))
    ensures Entails(f.clauses, learnt)
  {
    CutEntails(t, f, VarsOf(learnt), learnt);
  }

  lemma ArenaKnown(t: Trail, db: Db, n: nat, f: Problem)
    requires BaseOk(t, db, n, f)
    ensures ArenaOk(db.ca, n)
  {
  }

  lemma InvBounds(t: Trail, db: Db, d: Dirt, f: Problem, q: nat)
    requires Inv(t, db, d, f, q)
    ensures Top(t) <= q <= |t.lits| && PropOk(t, db, q) && t.Wf(|t.assigns|)
  {
  }

  ghost predicate FalsifiedUnary(ca: Arena, cr: nat, p: Lit) {
    Live(ca, cr) && ca[cr].oneWatched && |ca[cr].lits| >= 2 && ca[cr].lits[0] == p.Neg()
  }

  lemma SizedBase(t: Trail, db: Db, n: nat, f: Problem)
    requires BaseOk(t, db, n, f)
    ensures t.Wf(n)
  {
  }

  lemma ClauseKnown(t: Trail, db: Db, n: nat, f: Problem, cr: nat)
    requires BaseOk(t, db, n, f) && Live(db.ca, cr)
    ensures ClauseOk(db.ca[cr], n) && t.Wf(n)
  {
  }

  /** Position of the watcher of cr. */
  method FindRef(ws: seq<Watcher>, cr: nat) returns (k: nat)
    requires HasRef(ws, cr)
    ensures k < |ws| && ws[k].cref == cr
    ensures forall i :: 0 <= i < k ==> ws[i].cref != cr
  {
    k := 0;
    while ws[k].cref != cr
      invariant k < |ws| && forall i :: 0 <= i < k ==> ws[i].cref != cr
      decreases |ws| - k
    {
      k := k + 1;
    }
  }
}
