/** The scan of backward subsumption: which clauses are still to be found. */
module SimpScan {
  import opened Cnf
  import opened TrailState
  import opened Subsumption
  import opened Occurrences
  import opened SimpSteps
  import opened SimpRuns

  // ---------- one candidate ----------

  /** Candidate x is looked at: alive, another clause, and not too long. */
  predicate Examined(c: Cls, x: nat, cr: nat, lim: int) {
    !c.deleted && x != cr && (lim == -1 || |c.lits| < lim)
  }

  /** What becomes of candidate x when the comparison says r. */
  ghost predicate Treated(p: Pre, q: Pre, x: nat, r: Outcome, good: bool)
    requires Alive(p.ca, x)
  {
    match r
    case Neither => q == p
    case Subset => q == Deleting(p, x)
    case AllBut(l) =>
      && Strengthened(p, q, x, l.Neg())
      && Replaces(p, x, RemoveFirst(p.ca[x].lits, l.Neg()), q, good)
  }

  lemma TreatedSo(p: Pre, q: Pre, x: nat, r: Outcome, good: bool)
    requires Alive(p.ca, x)
    requires r == Neither ==> q == p
    requires r == Subset ==> q == Deleting(p, x)
    requires r.AllBut? ==> Strengthened(p, q, x, r.p.Neg()) && Replaces(p, x, RemoveFirst(p.ca[x].lits, r.p.Neg()), q, good)
    ensures Treated(p, q, x, r, good)
  {
  }

  /** Candidate x was compared with c and treated accordingly. */
  ghost predicate Checked(p: Pre, q: Pre, c: seq<Lit>, cr: nat, x: nat, lim: int, r: Outcome, good: bool) {
    && x in p.ca
    && if Examined(p.ca[x], x, cr, lim) then Correct(c, p.ca[x].lits, r) && Treated(p, q, x, r, good)
       else r == Neither && q == p
  }

  // ---------- one scan ----------

  /** Candidate x is looked at, and removed or strengthened by c. */
  ghost predicate Touched(p: Pre, cr: nat, c: seq<Lit>, lim: int, x: nat) {
    x in p.ca && Examined(p.ca[x], x, cr, lim) && !Correct(c, p.ca[x].lits, Neither)
  }

  /** No other clause, as far as it is short enough, can be simplified by c. */
  ghost predicate NothingTouched(p: Pre, cr: nat, c: seq<Lit>, lim: int) {
    forall x :: !Touched(p, cr, c, lim, x)
  }

  ghost predicate InFrom(list: seq<nat>, j: nat, x: nat) {
    exists k :: j <= k < |list| && list[k] == x
  }

  /** Whatever c would touch is in the list from j on. */
  ghost predicate LeftFrom(p: Pre, cr: nat, c: seq<Lit>, lim: int, list: seq<nat>, j: nat) {
    forall x :: Touched(p, cr, c, lim, x) ==> InFrom(list, j, x)
  }

  /** Every clause that c touches mentions each variable of c. */
  lemma TouchedListed(p: Pre, cr: nat, c: seq<Lit>, lim: int, best: nat)
    requires PreOk(p) && best < |p.occurs| && HasVar(c, best)
    ensures LeftFrom(p, cr, c, lim, p.occurs[best], 0)
  {
    LookupExact(p, best);
    hide PreOk;
    forall x | Touched(p, cr, c, lim, x)
      ensures InFrom(p.occurs[best], 0, x)
    {
      TouchedHasVar(c, p.ca[x].lits, best);
      var k :| 0 <= k < |p.occurs[best]| && p.occurs[best][k] == x;
    }
  }

  lemma TouchedHasVar(c: seq<Lit>, d: seq<Lit>, v: nat)
    requires !Correct(c, d, Neither) && HasVar(c, v)
    ensures HasVar(d, v)
  {
    var i :| 0 <= i < |c| && c[i].v == v;
    assert c[i] in c;
    if c[i] in d {
      var k :| 0 <= k < |d| && d[k] == c[i];
    } else {
      assert c[i].Neg() in d;
      var k :| 0 <= k < |d| && d[k] == c[i].Neg();
    }
  }

  /** A strengthened clause is not touched again. */
  lemma StrengthenedUntouched(c: seq<Lit>, d: seq<Lit>, l: Lit)
    requires DistinctVars(d) && SubsumesBut(c, d, l)
    ensures Correct(c, RemoveFirst(d, l.Neg()), Neither)
  {
    var d' := RemoveFirst(d, l.Neg());
    WithoutBoth(d, l);
    assert !Subsumes(c, d');
    forall q
      ensures !SubsumesBut(c, d', q)
    {
    }
  }

  lemma WithoutBoth(d: seq<Lit>, l: Lit)
    requires DistinctVars(d) && l.Neg() in d
    ensures l !in RemoveFirst(d, l.Neg()) && l.Neg() !in RemoveFirst(d, l.Neg())
  {
    LitsDistinct(d);
    RemoveFirstExact(d, l.Neg());
  }

  /** After the j-th candidate is treated, the scan goes on where LeftFrom says. */
  lemma ScanStep(p: Pre, q: Pre, c: seq<Lit>, cr: nat, best: nat, j: nat, lim: int, r: Outcome, good: bool)
    requires PreOk(p) && best < |p.occurs| && j < |p.occurs[best]| && LeftFrom(p, cr, c, lim, p.occurs[best], j)
    requires Checked(p, q, c, cr, p.occurs[best][j], lim, r, good) && q.ca.Keys == p.ca.Keys
    ensures best < |q.occurs| && LeftFrom(q, cr, c, lim, q.occurs[best], if r.AllBut? && r.p.v == best then j else j + 1)
  {
    hide PreOk, Replaces, LeftFrom, Subsumes, SubsumesBut;
    var x := p.occurs[best][j];
    if !Examined(p.ca[x], x, cr, lim) || r == Neither {
      SkippedStep(p, c, cr, best, j, lim);
    } else if r == Subset {
      DeletedStep(p, q, c, cr, best, j, lim);
    } else {
      StrengthenedStep(p, q, c, cr, best, j, lim, r.p);
    }
  }

  lemma SkippedStep(p: Pre, c: seq<Lit>, cr: nat, best: nat, j: nat, lim: int)
    requires best < |p.occurs| && j < |p.occurs[best]| && LeftFrom(p, cr, c, lim, p.occurs[best], j)
    requires !Touched(p, cr, c, lim, p.occurs[best][j])
    ensures LeftFrom(p, cr, c, lim, p.occurs[best], j + 1)
  {
    hide Touched;
    forall x | Touched(p, cr, c, lim, x)
      ensures InFrom(p.occurs[best], j + 1, x)
    {
      assert InFrom(p.occurs[best], j, x);
    }
  }

  lemma DeletedStep(p: Pre, q: Pre, c: seq<Lit>, cr: nat, best: nat, j: nat, lim: int)
    requires best < |p.occurs| && j < |p.occurs[best]| && LeftFrom(p, cr, c, lim, p.occurs[best], j)
    requires p.occurs[best][j] in p.ca && q == Deleting(p, p.occurs[best][j])
    ensures LeftFrom(q, cr, c, lim, q.occurs[best], j + 1)
  {
    hide Correct;
    forall x | Touched(q, cr, c, lim, x)
      ensures InFrom(q.occurs[best], j + 1, x)
    {
      assert Touched(p, cr, c, lim, x);
      assert InFrom(p.occurs[best], j, x);
    }
  }

  lemma StrengthenedStep(p: Pre, q: Pre, c: seq<Lit>, cr: nat, best: nat, j: nat, lim: int, l: Lit)
    requires PreOk(p) && best < |p.occurs| && j < |p.occurs[best]| && LeftFrom(p, cr, c, lim, p.occurs[best], j)
    requires Alive(p.ca, p.occurs[best][j]) && SubsumesBut(c, p.ca[p.occurs[best][j]].lits, l)
    requires Strengthened(p, q, p.occurs[best][j], l.Neg()) && q.ca.Keys == p.ca.Keys
    ensures best < |q.occurs| && LeftFrom(q, cr, c, lim, q.occurs[best], if l.v == best then j else j + 1)
  {
    var y := p.occurs[best][j];
    var next := if l.v == best then j else j + 1;
    PreClause(p, y);
    LookupExact(p, best);
    StrengthenedUntouched(c, p.ca[y].lits, l);
    hide PreOk, Correct, SubsumesBut, Abstraction;
    forall x | Touched(q, cr, c, lim, x)
      ensures InFrom(q.occurs[best], next, x)
    {
      assert x != y;
      assert Touched(p, cr, c, lim, x);
      assert InFrom(p.occurs[best], j, x);
      StillInFrom(p.occurs[best], q.occurs[best], j, next, x);
    }
  }

  /** What comes behind the j-th entry is still there, whether that entry left the list or not. */
  lemma StillInFrom(list: seq<nat>, list': seq<nat>, j: nat, next: nat, x: nat)
    requires Distinct(list) && j < |list| && InFrom(list, j, x) && x != list[j]
    requires (list' == list && next <= j + 1) || (list' == RemoveFirst(list, list[j]) && next == j)
    ensures InFrom(list', next, x)
  {
    var k :| j <= k < |list| && list[k] == x;
    WithoutAt(list, j);
    if list' != list {
      assert list'[k - 1] == x;
    }
  }

  /** Removing the j-th entry of a list without repetitions. */
  lemma {:induction false} WithoutAt(s: seq<nat>, j: nat)
    requires Distinct(s) && j < |s|
    ensures RemoveFirst(s, s[j]) == s[..j] + s[j + 1..]
  {
    if j > 0 {
      WithoutAt(s[1..], j - 1);
    }
  }

  lemma ScanEnds(p: Pre, cr: nat, c: seq<Lit>, lim: int, list: seq<nat>)
    requires LeftFrom(p, cr, c, lim, list, |list|)
    ensures NothingTouched(p, cr, c, lim)
  {
  }

  // ---------- the whole check ----------

  ghost predicate Small(p: Pre, lim: int) {
    lim == -1 || forall x :: Alive(p.ca, x) ==> |p.ca[x].lits| < lim
  }

  /** Clause x is as before, or it lost literals and waits in the queue. */
  ghost predicate SameOrQueued(p: Pre, q: Pre, queue: seq<nat>, x: nat)
    requires Alive(q.ca, x)
  {
    && Alive(p.ca, x)
    && (q.ca[x] == p.ca[x] || (x in queue && |q.ca[x].lits| <= |p.ca[x].lits| && Subsumes(q.ca[x].lits, p.ca[x].lits)))
  }

  /** The queue grew, and every clause that changed is in it. */
  ghost predicate Requeues(p: Pre, queue: seq<nat>, q: Pre, queue': seq<nat>) {
    && queue <= queue' && p.t.lits <= q.t.lits
    && forall x :: Alive(q.ca, x) ==> SameOrQueued(p, q, queue', x)
  }

  /** The level 0 literal l waits as the dummy unit, or there is nothing left for it to simplify. */
  ghost predicate UnitDone(p: Pre, queue: seq<nat>, unit: Lit, l: Lit, lim: int) {
    (BWDSUB_TMPUNIT in queue && l == unit) || NothingTouched(p, BWDSUB_TMPUNIT, [l], lim)
  }

  /** Only what waits in the queue, and level 0 literals from done on, can simplify a clause. */
  ghost predicate Clean(p: Pre, queue: seq<nat>, unit: Lit, done: nat, lim: int) {
    && (forall cr :: Alive(p.ca, cr) && cr !in queue ==> NothingTouched(p, cr, p.ca[cr].lits, lim))
    && (forall i :: 0 <= i < done && i < |p.t.lits| ==> UnitDone(p, queue, unit, p.t.lits[i], lim))
  }

  lemma RequeuesReflexive(p: Pre, queue: seq<nat>)
    ensures Requeues(p, queue, p, queue)
  {
  }

  lemma RequeuesTransitive(p0: Pre, queue0: seq<nat>, p: Pre, queue: seq<nat>, q: Pre, queue': seq<nat>)
    requires Requeues(p0, queue0, p, queue) && Requeues(p, queue, q, queue')
    ensures Requeues(p0, queue0, q, queue')
  {
    forall x | Alive(q.ca, x)
      ensures SameOrQueued(p0, q, queue', x)
    {
      assert SameOrQueued(p, q, queue', x) && SameOrQueued(p0, p, queue, x);
      if x in queue {
        var k :| 0 <= k < |queue| && queue[k] == x;
        assert queue'[k] == x;
      }
    }
  }

  lemma DeletedRequeues(p: Pre, queue: seq<nat>, x: nat)
    requires x in p.ca
    ensures Requeues(p, queue, Deleting(p, x), queue)
  {
  }

  lemma StrengthenedRequeues(p: Pre, queue: seq<nat>, q: Pre, x: nat, l: Lit)
    requires Alive(p.ca, x) && |p.ca[x].lits| >= 2 && Strengthened(p, q, x, l) && q.ca.Keys == p.ca.Keys && p.t.lits <= q.t.lits
    requires Distinct(p.ca[x].lits)
    ensures Requeues(p, queue, q, queue + [x])
  {
    hide Abstraction;
    RemoveFirstExact(p.ca[x].lits, l);
    forall y | Alive(q.ca, y)
      ensures SameOrQueued(p, q, queue + [x], y)
    {
    }
  }

  /** A clause that loses literals offers nothing new to simplify. */
  lemma TouchedBefore(p: Pre, queue: seq<nat>, q: Pre, queue': seq<nat>, cr: nat, c: seq<Lit>, lim: int)
    requires Requeues(p, queue, q, queue') && Small(p, lim) && NothingTouched(p, cr, c, lim)
    ensures NothingTouched(q, cr, c, lim)
  {
    forall x
      ensures !Touched(q, cr, c, lim, x)
    {
      if Touched(q, cr, c, lim, x) {
        assert SameOrQueued(p, q, queue', x);
        TouchesMore(c, q.ca[x].lits, p.ca[x].lits);
        assert Touched(p, cr, c, lim, x);
      }
    }
  }

  lemma TouchesMore(c: seq<Lit>, d: seq<Lit>, d': seq<Lit>)
    requires Subsumes(d, d') && !Correct(c, d, Neither)
    ensures !Correct(c, d', Neither)
  {
    if !Subsumes(c, d) {
      var l :| SubsumesBut(c, d, l);
      assert SubsumesBut(c, d', l);
    }
  }

  /** The first entry of the queue is done once nothing is left for it to simplify. */
  lemma CleanAfter(p: Pre, queue: seq<nat>, q: Pre, queue': seq<nat>, c: seq<Lit>, unit: Lit, done: nat, lim: int)
    requires queue != [] && Requeues(p, queue[1..], q, queue') && Small(p, lim) && done <= |p.t.lits|
    requires Clean(p, queue, unit, done, lim) && PreOk(q)
    requires if queue[0] == BWDSUB_TMPUNIT then c == [unit] else Alive(p.ca, queue[0]) ==> c == p.ca[queue[0]].lits
    requires NothingTouched(q, queue[0], c, lim) || (queue[0] != BWDSUB_TMPUNIT && !Alive(p.ca, queue[0]))
    ensures Clean(q, queue', unit, done, lim) && Small(q, lim)
  {
    hide NothingTouched;
    forall cr | Alive(q.ca, cr)
      ensures cr !in queue' ==> NothingTouched(q, cr, q.ca[cr].lits, lim)
      ensures Small(p, lim) && (lim == -1 || |q.ca[cr].lits| < lim)
    {
      PreClause(q, cr);
      hide PreOk;
      assert SameOrQueued(p, q, queue', cr);
      if cr !in queue' && cr != queue[0] {
        StillWaiting(queue, queue', cr);
        TouchedBefore(p, queue[1..], q, queue', cr, q.ca[cr].lits, lim);
      }
    }
    hide PreOk;
    forall i | 0 <= i < done && i < |q.t.lits|
      ensures UnitDone(q, queue', unit, q.t.lits[i], lim)
    {
      var l := p.t.lits[i];
      assert UnitDone(p, queue, unit, l, lim);
      if BWDSUB_TMPUNIT in queue && l == unit && queue[0] != BWDSUB_TMPUNIT {
        StillWaiting(queue, queue', BWDSUB_TMPUNIT);
      } else if !(l == unit && queue[0] == BWDSUB_TMPUNIT) {
        TouchedBefore(p, queue[1..], q, queue', BWDSUB_TMPUNIT, [l], lim);
      }
    }
  }

  lemma StillWaiting(queue: seq<nat>, queue': seq<nat>, x: nat)
    requires queue != [] && queue[1..] <= queue' && x != queue[0]
    ensures x in queue ==> x in queue'
  {
    if x in queue {
      var k :| 0 <= k < |queue| && queue[k] == x;
      assert queue'[k - 1] == queue[1..][k - 1];
    }
  }

  /** The next level 0 literal becomes the dummy unit. */
  lemma CleanUnit(p: Pre, unit: Lit, done: nat, lim: int)
    requires Clean(p, [], unit, done, lim) && done < |p.t.lits|
    requires forall cr :: Alive(p.ca, cr) ==> cr != BWDSUB_TMPUNIT
    ensures Clean(p, [BWDSUB_TMPUNIT], p.t.lits[done], done + 1, lim)
  {
    hide NothingTouched;
    var unit' := p.t.lits[done];
    forall i | 0 <= i < done + 1 && i < |p.t.lits|
      ensures UnitDone(p, [BWDSUB_TMPUNIT], unit', p.t.lits[i], lim)
    {
      if i < done {
        assert UnitDone(p, [], unit, p.t.lits[i], lim);
      }
    }
  }

  /** With an empty queue and all level 0 literals done, no clause subsumes or almost subsumes
      another, and no clause mentions a variable that level 0 decides. */
  lemma CleanIsReduced(p: Pre, unit: Lit, lim: int)
    requires PreOk(p) && Clean(p, [], unit, |p.t.lits|, lim) && Small(p, lim)
    ensures forall x, y :: Alive(p.ca, x) && Alive(p.ca, y) && x != y ==> Correct(p.ca[x].lits, p.ca[y].lits, Neither)
    ensures forall x, v: nat :: Alive(p.ca, x) && p.t.Assigned(v) ==> !HasVar(p.ca[x].lits, v)
  {
    forall x, y | Alive(p.ca, x) && Alive(p.ca, y) && x != y
      ensures Correct(p.ca[x].lits, p.ca[y].lits, Neither)
    {
      hide PreOk;
      assert !Touched(p, x, p.ca[x].lits, lim, y);
    }
    forall x, v: nat | Alive(p.ca, x) && p.t.Assigned(v)
      ensures !HasVar(p.ca[x].lits, v)
    {
      PreClause(p, x);
      assert p.t.Levelled(v);
      var i := p.t.pos[v];
      hide PreOk;
      assert UnitDone(p, [], unit, p.t.lits[i], lim);
      assert !Touched(p, BWDSUB_TMPUNIT, [p.t.lits[i]], lim, x);
      UntouchedLacks(p.t.lits[i], p.ca[x].lits);
    }
  }

  lemma UntouchedLacks(l: Lit, d: seq<Lit>)
    requires Correct([l], d, Neither)
    ensures !HasVar(d, l.v)
  {
    assert Subsumes([l], d) || l !in d;
    assert SubsumesBut([l], d, l) || l.Neg() !in d;
    forall k | 0 <= k < |d|
      ensures d[k].v != l.v
    {
      assert d[k] in d;
    }
  }

  // ---------- between the steps ----------

  lemma AfterStrengthening(p: Pre, q: Pre, c: seq<Lit>, cr: nat, best: nat, j: nat, l: Lit, queue: seq<nat>)
    requires PreOk(p) && Premise(p, cr, c) && Reduces(p, q) && best < |p.occurs| && j < |p.occurs[best]|
    requires Alive(p.ca, p.occurs[best][j]) && p.occurs[best][j] != cr && Strengthened(p, q, p.occurs[best][j], l.Neg())
    ensures Premise(q, cr, c) && best < |q.occurs| && (if l.v == best then j else j + 1) <= |q.occurs[best]|
    ensures Requeues(p, queue, q, queue + [p.occurs[best][j]])
  {
    var x := p.occurs[best][j];
    PreClause(p, x);
    LitsDistinct(p.ca[x].lits);
    hide PreOk, Shortened;
    PremiseKept(p, q, cr, c, x);
    ShortenedAt(p, x, l.Neg(), best, j, q);
    StrengthenedRequeues(p, queue, q, x, l.Neg());
  }

  lemma LookedRequeues(p: Pre, q: Pre, queue: seq<nat>)
    requires q == p.(occurs := q.occurs, dirty := q.dirty)
    ensures Requeues(p, queue, q, queue)
  {
  }

  lemma SameStore(p: Pre, q: Pre)
    requires Reduces(p, q)
    ensures q.ca.Keys == p.ca.Keys
  {
  }

  lemma TrailGrows(p: Pre, q: Pre)
    requires Reduces(p, q)
    ensures |p.t.lits| <= |q.t.lits|
  {
  }

  lemma NextDone(p: Pre, queue: seq<nat>, q: Pre, queue': seq<nat>, c: seq<Lit>, unit: Lit, done: nat, lim: int)
    requires queue != [] && Requeues(p, queue[1..], q, queue') && done <= |p.t.lits| && PreOk(q)
    requires if queue[0] == BWDSUB_TMPUNIT then c == [unit] else Alive(p.ca, queue[0]) ==> c == p.ca[queue[0]].lits
    requires NothingTouched(q, queue[0], c, lim) || (queue[0] != BWDSUB_TMPUNIT && !Alive(p.ca, queue[0]))
    ensures Small(p, lim) && Clean(p, queue, unit, done, lim) ==> Small(q, lim) && Clean(q, queue', unit, done, lim)
  {
    hide PreOk, Requeues, NothingTouched, Small, Clean;
    if Small(p, lim) && Clean(p, queue, unit, done, lim) {
      CleanAfter(p, queue, q, queue', c, unit, done, lim);
    }
  }

  lemma UnitIsNext(p: Pre, queue: seq<nat>, unit: Lit, done: nat, lim: int)
    requires PreOk(p) && queue == [] && done < |p.t.lits|
    ensures Clean(p, queue, unit, done, lim) ==> Clean(p, [BWDSUB_TMPUNIT], p.t.lits[done], done + 1, lim)
  {
    forall cr | Alive(p.ca, cr)
      ensures cr != BWDSUB_TMPUNIT
    {
      PreClause(p, cr);
    }
    hide PreOk, Clean;
    if Clean(p, [], unit, done, lim) {
      CleanUnit(p, unit, done, lim);
    }
  }
}
