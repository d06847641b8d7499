/** The steps of the search between propagations: adding a learnt clause, removing clauses,
    adding problem clauses, and why the search ends. */
module SearchSteps {
  import opened Wrappers
  import opened Cnf
  import opened TrailState
  import opened ClauseDb
  import opened Cuts
  import opened Invariants
  import opened Propagation
  import opened Visits
  import opened Attach
  import opened Purgatory
  import opened PropagationQueue
  import opened Analysis
  import opened Minimise

  // ---------- learning ----------

  /** After backtracking the learnt clause is unit. */
  lemma LearntUnit(t: Trail, n: nat, learnt: seq<Lit>, bt: nat)
    requires t.Wf(n) && Learnt(t, learnt, bt)
    ensures var u := t.Cancel(bt);
            && u.Wf(n) && |u.lim| == bt && learnt[0].v < n && u.IsUndef(learnt[0])
            && (forall k :: 1 <= k < |learnt| ==> u.IsFalse(learnt[k]))
            && (|learnt| > 1 ==> UnitFor(u, learnt, learnt[0]) && u.level[learnt[1].v] == bt)
  {
    var u := t.Cancel(bt);
    CancelWf(t, n, bt);
    assert t.IsFalse(learnt[0]) && t.level[learnt[0].v] == |t.lim| > bt;
    assert !u.Assigned(learnt[0].v);
    forall k | 1 <= k < |learnt|
      ensures u.IsFalse(learnt[k])
    {
      assert Lower(t, learnt[k]) && u.Assigned(learnt[k].v);
    }
  }

  /** The new clause record of a learnt clause. */
  function LearntRec(learnt: seq<Lit>): ClauseRec {
    ClauseRec(learnt, true, false, false, false, false)
  }

  /** The words a clause takes: three of header, its literals, and for learnt and imported clauses
      one or three more. */
  function ClauseWords(c: ClauseRec): (w: nat)
    ensures w > |c.lits|
  {
    3 + |c.lits| + if c.imported then 3 else if c.learnt then 1 else 0
  }

  /** The database with the clause allocated at the next reference and attached. */
  function Allocated(db: Db, c: ClauseRec, size: nat): Db {
    db.(ca := db.ca[db.next := c], next := db.next + size)
  }

  lemma LearntClauseOk(t: Trail, n: nat, learnt: seq<Lit>, bt: nat)
    requires Learnt(t, learnt, bt) && |t.assigns| == n && |learnt| > 1
    ensures ClauseOk(LearntRec(learnt), n)
  {
  }

  /** The lists survive the change of the problem record, which only adds a stored clause. */
  lemma StoringTrail(t: Trail, db: Db, n: nat, f: Problem, c: ClauseRec, cr: nat)
    requires TrailOk(t, db.ca, n, f) && cr !in db.ca
    ensures TrailOk(t, db.ca[cr := c], n, Storing(f, cr, c))
  {
    FreshKeepsReasons(t, db.ca, cr, c);
  }

  lemma FreshProp(t: Trail, db: Db, n: nat, f: Problem, c: ClauseRec, size: nat, q: nat)
    requires DbOk(db, n, f) && PropOk(t, db, q) && db.next !in db.ca
    ensures PropOk(t, Allocated(db, c, size), q)
  {
    hide ArenaOk, ArenaSound, Attached;
    FreshKeepsPropagated(t, db.ca, db.long, n, Long, q, db.next, c);
    FreshKeepsPropagated(t, db.ca, db.bin, n, Binary, q, db.next, c);
    FreshKeepsPropagated(t, db.ca, db.unary, n, Unary, q, db.next, c);
    SamePropLists(t, db.(ca := db.ca[db.next := c]), Allocated(db, c, size), q);
  }

  lemma SamePropLists(t: Trail, db: Db, db': Db, q: nat)
    requires PropOk(t, db, q) && db'.ca == db.ca && db'.long == db.long && db'.bin == db.bin && db'.unary == db.unary
    ensures PropOk(t, db', q)
  {
  }

  /** Allocation in a clean state. */
  lemma AllocBase(t: Trail, db: Db, n: nat, f: Problem, c: ClauseRec, size: nat, q: nat)
    requires BaseOk(t, db, n, f) && PropOk(t, db, q) && ClauseOk(c, n) && Entails(f.clauses, c.lits) && !c.deleted && size > 0
    ensures db.next !in db.ca
    ensures var db' := Allocated(db, c, size); var f' := Storing(f, db.next, c);
            DbOkBut(db', n, f', db.next) && TrailOk(t, db'.ca, n, f') && AllClean(db') && PropOk(t, db', q)
  {
    hide DbOk, DbOkBut, TrailOk, PropOk, Clean;
    AllocOk(db, n, f, c, size);
    StoringTrail(t, db, n, f, c, db.next);
    FreshProp(t, db, n, f, c, size, q);
    AllocClean(db, c, size);
  }

  lemma AllocClean(db: Db, c: ClauseRec, size: nat)
    requires AllClean(db) && db.next !in db.ca
    ensures AllClean(Allocated(db, c, size))
  {
    var db' := Allocated(db, c, size);
    assert forall x :: Live(db.ca, x) ==> Live(db'.ca, x);
  }

  /** Learning a clause of at least two literals: it is stored, attached and propagates. */
  lemma LearnStep(t: Trail, db: Db, n: nat, f: Problem, learnt: seq<Lit>, bt: nat, size: nat)
    requires BaseOk(t, db, n, f) && PropOk(t, db, Top(t)) && Learnt(t, learnt, bt) && Entails(f.clauses, learnt)
    requires |learnt| > 1 && size > 0
    ensures var u := t.Cancel(bt); var c := LearntRec(learnt); var cr := db.next; var db1 := Allocated(db, c, size);
            && t.Wf(n) && bt < |t.lim| && |learnt| >= 2
            && learnt[0].Neg() in db1.long && learnt[1].Neg() in db1.long
            && learnt[0].Neg() in db1.bin && learnt[1].Neg() in db1.bin
            && u.Sized(n) && u.IsUndef(learnt[0])
            && BaseOk(u.Push(learnt[0], Some(cr)), WithAttached(db1, cr), n, Storing(f, cr, c))
            && PropOk(u.Push(learnt[0], Some(cr)), WithAttached(db1, cr), |u.lits|)
            && Top(u.Push(learnt[0], Some(cr))) <= |u.lits|
  {
    hide DbOk, DbOkBut, RootSound, ReasonsOk, PropOk, AllClean;
    var u := t.Cancel(bt);
    var c := LearntRec(learnt);
    var cr := db.next;
    LearntUnit(t, n, learnt, bt);
    TopAbove(t, n, bt);
    CancelOk(t, db, n, f, Top(t), bt);
    LearntClauseOk(t, n, learnt, bt);
    AllocBase(u, db, n, f, c, size, t.lim[bt]);
    LearnAttach(u, Allocated(db, c, size), n, Storing(f, cr, c), cr, t.lim[bt]);
  }

  lemma TopAbove(t: Trail, n: nat, k: nat)
    requires t.Wf(n) && k < |t.lim|
    ensures t.lim[k] <= Top(t) && |t.Cancel(k).lits| == t.lim[k]
    ensures Top(t.Cancel(k)) <= t.lim[k]
  {
  }

  /** Attaching a clause that is unit, with its second literal on the current level, and
      enqueueing its first literal. */
  lemma LearnAttach(u: Trail, db: Db, n: nat, f: Problem, cr: nat, q: nat)
    requires DbOkBut(db, n, f, cr) && TrailOk(u, db.ca, n, f) && AllClean(db) && PropOk(u, db, q)
    requires Live(db.ca, cr) && !db.ca[cr].oneWatched && q <= |u.lits|
    requires var c := db.ca[cr].lits;
             && |c| >= 2 && c[0].v < n && u.IsUndef(c[0]) && UnitFor(u, c, c[0])
             && c[1].v < |u.level| && u.level[c[1].v] == |u.lim|
    ensures var c := db.ca[cr].lits;
            && c[0].Neg() in db.long && c[1].Neg() in db.long && c[0].Neg() in db.bin && c[1].Neg() in db.bin
            && u.Sized(n) && u.Sized(|u.assigns|)
            && BaseOk(u.Push(c[0], Some(cr)), WithAttached(db, cr), n, f)
            && PropOk(u.Push(c[0], Some(cr)), WithAttached(db, cr), q)
  {
    hide RootSound, ReasonsOk, Propagated, ListsOk, Attached, AttachedBut, Unlisted, Clean;
    var c := db.ca[cr].lits;
    AttachOk(db, n, f, cr);
    assert Entails(f.clauses, c);
    PushForced(u, db.ca, n, f, c[0], cr);
    PushWf(u, n, c[0], Some(cr));
    PushPropagated(u, db.ca, n, db.long, q, c[0], Some(cr));
    PushPropagated(u, db.ca, n, db.bin, q, c[0], Some(cr));
    PushPropagated(u, db.ca, n, db.unary, q, c[0], Some(cr));
    LearnSettled(u, db, n, cr, q);
    AttachPropagated(u.Push(c[0], Some(cr)), db, cr, q);
  }

  lemma LearnSettled(u: Trail, db: Db, n: nat, cr: nat, q: nat)
    requires u.Wf(n) && Live(db.ca, cr)
    requires var c := db.ca[cr].lits;
             && |c| >= 2 && DistinctVars(c) && c[0].v < n && u.IsUndef(c[0]) && c[1].v < n && u.level[c[1].v] == |u.lim|
    ensures var c := db.ca[cr].lits; var w := u.Push(c[0], Some(cr));
            && !Processed(w, c[0].Neg(), q)
            && Settled(w, db.ca, Watcher(cr, c[0]), c[1].Neg())
  {
    var c := db.ca[cr].lits;
    PushWf(u, n, c[0], Some(cr));
    assert u.Push(c[0], Some(cr)).IsTrue(c[0]);
  }

  /** Learning a unit clause: it is enqueued at level 0. */
  lemma LearnUnit(t: Trail, db: Db, n: nat, f: Problem, learnt: seq<Lit>)
    requires BaseOk(t, db, n, f) && PropOk(t, db, Top(t)) && Learnt(t, learnt, 0) && Entails(f.clauses, learnt)
    requires |learnt| == 1
    ensures t.Wf(n) && 0 < |t.lim|
    ensures var u := t.Cancel(0);
            && u.Sized(n) && u.IsUndef(learnt[0])
            && BaseOk(u.Push(learnt[0], None), db, n, f) && PropOk(u.Push(learnt[0], None), db, |u.lits|)
            && Top(u.Push(learnt[0], None)) <= |u.lits|
  {
    hide DbOk, RootSound, ReasonsOk, Propagated, AllClean;
    var u := t.Cancel(0);
    LearntUnit(t, n, learnt, 0);
    TopAbove(t, n, 0);
    CancelOk(t, db, n, f, Top(t), 0);
    assert learnt == [learnt[0]];
    PushFree(u, db.ca, n, f, learnt[0]);
    PushPropagated(u, db.ca, n, db.long, t.lim[0], learnt[0], None);
    PushPropagated(u, db.ca, n, db.bin, t.lim[0], learnt[0], None);
    PushPropagated(u, db.ca, n, db.unary, t.lim[0], learnt[0], None);
  }

  // ---------- deciding ----------

  lemma DecideStep(t: Trail, db: Db, d: Dirt, f: Problem, p: Lit)
    requires Inv(t, db, d, f, |t.lits|) && t.IsUndef(p)
    ensures Inv(t.NewLevel(), db, d, f, |t.lits|)
    ensures t.NewLevel().Sized(|t.assigns|) && Inv(t.NewLevel().Push(p, None), db, d, f, |t.lits|)
  {
    hide DbOk, RootSound, ReasonsOk, Propagated, Clean;
    var n := |t.assigns|;
    NewLevelOk(t, db, n, f, |t.lits|);
    var u := t.NewLevel();
    PushFree(u, db.ca, n, f, p);
    PushPropagated(u, db.ca, n, db.long, |t.lits|, p, None);
    PushPropagated(u, db.ca, n, db.bin, |t.lits|, p, None);
    PushPropagated(u, db.ca, n, db.unary, |t.lits|, p, None);
  }

  lemma DummyLevel(t: Trail, db: Db, d: Dirt, f: Problem)
    requires Inv(t, db, d, f, |t.lits|)
    ensures Inv(t.NewLevel(), db, d, f, |t.lits|)
  {
    hide DbOk, RootSound, ReasonsOk, Propagated, Clean;
    NewLevelOk(t, db, |t.assigns|, f, |t.lits|);
  }

  lemma RestartStep(t: Trail, db: Db, d: Dirt, f: Problem, q: nat, k: nat)
    requires Inv(t, db, d, f, q) && k < |t.lim|
    ensures t.Wf(|t.assigns|) && Inv(t.Cancel(k), db, d, f, t.lim[k])
  {
    hide DbOk, RootSound, ReasonsOk, Propagated, Clean;
    TopAbove(t, |t.assigns|, k);
    CancelOk(t, db, |t.assigns|, f, q, k);
  }

  // ---------- conflicts at level 0 ----------

  /** A falsified clause at level 0 refutes the problem. */
  lemma RootConflict(t: Trail, db: Db, n: nat, f: Problem, cr: nat)
    requires BaseOk(t, db, n, f) && Conflicting(t, db.ca, cr) && t.lim == []
    ensures Unsat(f.clauses)
  {
    hide ListsOk, Attached, Clean, ReasonsOk;
    var c := db.ca[cr].lits;
    assert Entails(f.clauses, c);
    ConflictCut(t, f, c);
    forall i | 0 <= i < |c|
      ensures t.level[c[i].v] == 0
    {
      assert t.IsFalse(c[i]) && t.Levelled(c[i].v);
    }
    assert UpperVars(t, c) == {};
    forall m: Model
      ensures !SatAll(m, f.clauses)
    {
      assert AgreesOn(m, t, {});
    }
  }

  // ---------- the measure of the search ----------

  ghost function Power(b: nat, e: nat): nat {
    if e == 0 then 1 else b * Power(b, e - 1)
  }

  lemma PowerPositive(b: nat, e: nat)
    requires b > 0
    ensures Power(b, e) > 0
  {
  }

  /** The weight of one literal: literals of lower levels weigh more than all literals of
      higher levels together. */
  ghost function Weight(n: nat, top: nat, level: nat): nat {
    Power(n + 1, if level <= top then top - level else 0)
  }

  ghost function Measure(n: nat, top: nat, levels: seq<nat>): nat {
    if levels == [] then 0 else Measure(n, top, levels[..|levels| - 1]) + Weight(n, top, levels[|levels| - 1])
  }

  ghost function LevelsOnTrail(t: Trail): seq<nat>
    requires t.Sized(|t.assigns|) && t.Indexed()
  {
    seq(|t.lits|, i requires 0 <= i < |t.lits| => assert t.IsTrue(t.lits[i]); t.level[t.lits[i].v])
  }

  lemma {:induction false} MeasureConcat(n: nat, top: nat, a: seq<nat>, b: seq<nat>)
    ensures Measure(n, top, a + b) == Measure(n, top, a) + Measure(n, top, b)
    decreases |b|
  {
    if b == [] {
      assert a + b == a;
    } else {
      var last := |b| - 1;
      assert (a + b)[..|a + b| - 1] == a + b[..last];
      MeasureConcat(n, top, a, b[..last]);
    }
  }

  lemma {:induction false} WeightMonotone(n: nat, top: nat, i: nat, j: nat)
    requires i <= j <= top
    ensures Weight(n, top, j) <= Weight(n, top, i)
    decreases j - i
  {
    if i < j {
      WeightMonotone(n, top, i + 1, j);
      PowerPositive(n + 1, top - i - 1);
      assert Weight(n, top, i) == (n + 1) * Weight(n, top, i + 1);
      assert (n + 1) * Weight(n, top, i + 1) >= Weight(n, top, i + 1) by {
        assert n * Weight(n, top, i + 1) >= 0;
      }
    }
  }

  /** At most n literals above level k weigh less than one literal of level k. */
  lemma {:induction false} HigherLevelsWeighLess(n: nat, top: nat, k: nat, levels: seq<nat>)
    requires k < top && forall i :: 0 <= i < |levels| ==> k < levels[i] <= top
    ensures Measure(n, top, levels) <= |levels| * Weight(n, top, k + 1)
  {
    if levels != [] {
      var last := |levels| - 1;
      HigherLevelsWeighLess(n, top, k, levels[..last]);
      WeightMonotone(n, top, k + 1, levels[last]);
      assert |levels| * Weight(n, top, k + 1) == last * Weight(n, top, k + 1) + Weight(n, top, k + 1);
    }
  }

  /** Replacing everything above level k by one literal of level k increases the measure,
      whatever was learnt or forgotten in between. */
  lemma BackjumpIncreases(n: nat, top: nat, k: nat, kept: seq<nat>, gone: seq<nat>)
    requires k < top && |kept| + |gone| <= n && forall i :: 0 <= i < |gone| ==> k < gone[i] <= top
    ensures Measure(n, top, kept + gone) < Measure(n, top, kept + [k])
  {
    MeasureConcat(n, top, kept, gone);
    MeasureConcat(n, top, kept, [k]);
    assert [k][..0] == [];
    assert Measure(n, top, [k]) == Weight(n, top, k);
    HigherLevelsWeighLess(n, top, k, gone);
    PowerPositive(n + 1, top - k - 1);
    NextWeight(n, top, k);
    Times(|gone|, n, Weight(n, top, k + 1));
  }

  lemma NextWeight(n: nat, top: nat, k: nat)
    requires k < top
    ensures Weight(n, top, k) == n * Weight(n, top, k + 1) + Weight(n, top, k + 1)
  {
  }

  lemma Times(a: nat, b: nat, w: nat)
    requires a <= b
    ensures a * w <= b * w
  {
  }

  /** The measure is bounded: the trail holds at most n literals. */
  lemma {:induction false} MeasureBound(n: nat, top: nat, levels: seq<nat>)
    requires |levels| <= n && forall i :: 0 <= i < |levels| ==> levels[i] <= top
    ensures Measure(n, top, levels) <= |levels| * Weight(n, top, 0)
  {
    if levels != [] {
      var last := |levels| - 1;
      MeasureBound(n, top, levels[..last]);
      WeightMonotone(n, top, 0, levels[last]);
      hide Weight;
      OneMoreTimes(last, Weight(n, top, 0));
    }
  }

  lemma OneMoreTimes(k: nat, w: nat)
    ensures (k + 1) * w == k * w + w
  {
  }

  // ---------- the measure on the trail ----------

  ghost function TrailMeasure(t: Trail, top: nat): nat
    requires t.Sized(|t.assigns|) && t.Indexed()
  {
    Measure(|t.assigns|, top, LevelsOnTrail(t))
  }

  /** Decision levels beyond the first a are not empty. */
  ghost predicate LevelsUsed(t: Trail, a: nat) {
    && (forall k :: 0 <= k < |t.lim| ==> k <= a + t.lim[k])
    && |t.lim| <= a + |t.lits|
  }

  lemma LevelsBelow(t: Trail, n: nat)
    requires t.Wf(n)
    ensures forall i :: 0 <= i < |t.lits| ==> LevelsOnTrail(t)[i] <= |t.lim|
  {
    forall i | 0 <= i < |t.lits|
      ensures LevelsOnTrail(t)[i] <= |t.lim|
    {
      assert t.IsTrue(t.lits[i]) && t.Levelled(t.lits[i].v);
    }
  }

  lemma TrailBound(t: Trail, n: nat, top: nat)
    requires t.Wf(n) && |t.lim| <= top
    ensures TrailMeasure(t, top) <= n * Weight(n, top, 0)
  {
    TrailFits(t, n);
    LevelsBelow(t, n);
    MeasureBound(n, top, LevelsOnTrail(t));
    Times(|t.lits|, n, Weight(n, top, 0));
  }

  /** u has all that t has, at the same levels. */
  ghost predicate Grows(t: Trail, u: Trail) {
    && u.lim == t.lim && t.lits <= u.lits && |u.assigns| == |t.assigns|
    && forall i :: 0 <= i < |t.lits| ==> SameLevel(t, u, t.lits[i].v)
  }

  ghost predicate SameLevel(t: Trail, u: Trail, v: nat) {
    v < |t.level| && v < |u.level| && u.level[v] == t.level[v]
  }

  lemma GrowsTransitive(t: Trail, u: Trail, w: Trail)
    requires Grows(t, u) && Grows(u, w)
    ensures Grows(t, w)
  {
    forall i | 0 <= i < |t.lits|
      ensures SameLevel(t, w, t.lits[i].v)
    {
      assert u.lits[i] == t.lits[i] && SameLevel(t, u, t.lits[i].v) && SameLevel(u, w, u.lits[i].v);
    }
  }

  lemma ExtendsGrows(t: Trail, u: Trail, n: nat)
    requires t.Wf(n) && u.Wf(n) && Extends(t, u)
    ensures Grows(t, u)
  {
    forall i | 0 <= i < |t.lits|
      ensures SameLevel(t, u, t.lits[i].v)
    {
      assert t.IsTrue(t.lits[i]) && SameVar(t, u, t.lits[i].v);
    }
  }

  lemma SameReasonsGrow(t: Trail, u: Trail, n: nat)
    requires t.Wf(n) && SameButReasons(t, u)
    ensures Grows(t, u)
  {
    forall i | 0 <= i < |t.lits|
      ensures SameLevel(t, u, t.lits[i].v)
    {
      assert t.IsTrue(t.lits[i]);
    }
  }

  lemma GrowsMeasure(t: Trail, u: Trail, n: nat, top: nat)
    requires t.Wf(n) && u.Wf(n) && Grows(t, u)
    ensures TrailMeasure(t, top) <= TrailMeasure(u, top)
  {
    var a, b := LevelsOnTrail(t), LevelsOnTrail(u);
    forall i | 0 <= i < |a|
      ensures a[i] == b[i]
    {
      assert SameLevel(t, u, t.lits[i].v);
    }
    assert b == a + b[|a|..];
    MeasureConcat(n, top, a, b[|a|..]);
  }

  lemma PushMeasure(t: Trail, n: nat, top: nat, p: Lit, from: Option<nat>)
    requires t.Wf(n) && p.v < n && t.IsUndef(p)
    ensures t.Push(p, from).Wf(n)
    ensures LevelsOnTrail(t.Push(p, from)) == LevelsOnTrail(t) + [|t.lim|]
    ensures TrailMeasure(t.Push(p, from), top) > TrailMeasure(t, top)
  {
    PushWf(t, n, p, from);
    var a, b := LevelsOnTrail(t), LevelsOnTrail(t.Push(p, from));
    forall i | 0 <= i < |a|
      ensures a[i] == b[i]
    {
      assert t.IsTrue(t.lits[i]);
    }
    assert b == a + [|t.lim|];
    MeasureConcat(n, top, a, [|t.lim|]);
    assert [|t.lim|][..0] == [];
    PowerPositive(n + 1, if |t.lim| <= top then top - |t.lim| else 0);
  }

  /** Opening a level and deciding increases the measure. */
  lemma DecideMeasure(t: Trail, n: nat, top: nat, a: nat, p: Lit)
    requires t.Wf(n) && p.v < n && t.IsUndef(p) && LevelsUsed(t, a)
    ensures t.NewLevel().Wf(n) && t.NewLevel().Push(p, None).Wf(n)
    ensures TrailMeasure(t.NewLevel().Push(p, None), top) > TrailMeasure(t, top)
    ensures LevelsUsed(t.NewLevel().Push(p, None), a)
  {
    NewLevelWf(t, n);
    assert LevelsOnTrail(t.NewLevel()) == LevelsOnTrail(t);
    PushMeasure(t.NewLevel(), n, top, p, None);
  }

  /** Backjumping and enqueueing the asserting literal increases the measure. */
  lemma LearnMeasure(t: Trail, n: nat, top: nat, a: nat, bt: nat, p: Lit, from: Option<nat>)
    requires t.Wf(n) && bt < |t.lim| <= top && p.v < n && LevelsUsed(t, a)
    requires t.Cancel(bt).IsUndef(p)
    ensures t.Cancel(bt).Push(p, from).Wf(n)
    ensures TrailMeasure(t.Cancel(bt).Push(p, from), top) > TrailMeasure(t, top)
    ensures LevelsUsed(t.Cancel(bt).Push(p, from), a)
  {
    var u := t.Cancel(bt);
    CancelWf(t, n, bt);
    PushMeasure(u, n, top, p, from);
    UndoneLevels(t, n, top, bt);
    TrailFits(t, n);
    BackjumpIncreases(n, top, bt, LevelsOnTrail(u), LevelsOnTrail(t)[t.lim[bt]..]);
  }

  /** What a backjump undoes lies above the level. */
  lemma UndoneLevels(t: Trail, n: nat, top: nat, bt: nat)
    requires t.Wf(n) && bt < |t.lim| <= top
    ensures t.lim[bt] <= |t.lits| && t.Cancel(bt).Wf(n)
    ensures var gone := LevelsOnTrail(t)[t.lim[bt]..];
            && LevelsOnTrail(t) == LevelsOnTrail(t.Cancel(bt)) + gone
            && forall i :: 0 <= i < |gone| ==> bt < gone[i] <= top
  {
    CancelWf(t, n, bt);
    var gone := LevelsOnTrail(t)[t.lim[bt]..];
    assert LevelsOnTrail(t)[..t.lim[bt]] == LevelsOnTrail(t.Cancel(bt));
    forall i | 0 <= i < |gone|
      ensures bt < gone[i] <= top
    {
      var l := t.lits[t.lim[bt] + i];
      assert t.IsTrue(l) && t.Levelled(l.v);
    }
  }

  // ---------- removing clauses ----------

  /** locked: the clause is the reason of one of its first literals. */
  predicate Locked(t: Trail, c: ClauseRec, cr: nat)
    requires |c.lits| >= 2 && t.Sized(|t.assigns|) && c.lits[0].v < |t.assigns| && c.lits[1].v < |t.assigns|
  {
    || (Value(t.assigns, c.lits[0]) == LTrue && t.reason[c.lits[0].v] == Some(cr))
    || (|c.lits| == 2 && Value(t.assigns, c.lits[1]) == LTrue && t.reason[c.lits[1].v] == Some(cr))
  }

  function Smudged(dirties: seq<Lit>, p: Lit): seq<Lit> {
    if p in dirties then dirties else dirties + [p]
  }

  /** detachClause: the lists of the watched literals become dirty. */
  function SmudgedFor(d: Dirt, c: ClauseRec): Dirt
    requires |c.lits| >= 2
  {
    if c.oneWatched then d.(unary := Smudged(d.unary, c.lits[0].Neg()))
    else if |c.lits| == 2 then d.(bin := Smudged(Smudged(d.bin, c.lits[0].Neg()), c.lits[1].Neg()))
    else d.(long := Smudged(Smudged(d.long, c.lits[0].Neg()), c.lits[1].Neg()))
  }

  function Deleted(ca: Arena, cr: nat): Arena
    requires cr in ca
  {
    ca[cr := ca[cr].(deleted := true)]
  }

  ghost function Forgetting(f: Problem, cr: nat): Problem
    requires cr in f.store
  {
    f.(store := f.store[cr := f.store[cr].(deleted := true)])
  }

  /** Deleting a clause leaves the lists in order; they may still name it. */
  lemma DeleteLists(ca: Arena, lists: Lists, n: nat, kind: Kind, cr: nat)
    requires ListsOk(ca, lists, n, kind) && Attached(ca, lists, kind) && cr in ca
    ensures ListsOk(Deleted(ca, cr), lists, n, kind) && Attached(Deleted(ca, cr), lists, kind)
  {
    var ca' := Deleted(ca, cr);
    forall p: Lit | p in lists
      ensures ListOk(ca', lists[p], p, kind)
    {
      assert ListOk(ca, lists[p], p, kind);
      forall i | 0 <= i < |lists[p]|
        ensures WatcherOk(ca', lists[p][i], p, kind)
      {
        assert WatcherOk(ca, lists[p][i], p, kind);
      }
    }
    forall x | Live(ca', x)
      ensures AttachedAt(ca'[x], x, lists, kind)
    {
      assert AttachedAt(ca[x], x, lists, kind);
    }
  }

  lemma DeleteClean(ca: Arena, lists: Lists, n: nat, kind: Kind, cr: nat, dirties: seq<Lit>, dirties': seq<Lit>)
    requires ListsOk(ca, lists, n, kind) && Clean(ca, lists, dirties) && Live(ca, cr)
    requires forall p :: p in dirties ==> p in dirties'
    requires KindOf(ca[cr]) == kind && |ca[cr].lits| >= 2 ==>
               ca[cr].lits[0].Neg() in dirties' && (kind != Unary ==> ca[cr].lits[1].Neg() in dirties')
    ensures Clean(Deleted(ca, cr), lists, dirties')
  {
    forall p: Lit, x | RefIn(lists, p, x) && p !in dirties'
      ensures Live(Deleted(ca, cr), x)
    {
      assert Live(ca, x) && p.Neg().Neg() == p;
      RefsKnown(ca, lists, n, kind, p, x);
    }
  }

  lemma DeletePropagated(t: Trail, ca: Arena, lists: Lists, q: nat, cr: nat)
    requires Propagated(t, ca, lists, q) && cr in ca
    ensures Propagated(t, Deleted(ca, cr), lists, q)
  {
    forall p: Lit | p in lists && Processed(t, p, q)
      ensures SettledList(t, Deleted(ca, cr), lists[p], p)
    {
      assert SettledList(t, ca, lists[p], p);
      forall i | 0 <= i < |lists[p]|
        ensures Settled(t, Deleted(ca, cr), lists[p][i], p)
      {
        assert Settled(t, ca, lists[p][i], p);
      }
    }
  }

  /** At level 0 no reason matters; above it only clauses that are not locked are deleted. */
  lemma DeleteReasons(t: Trail, ca: Arena, n: nat, cr: nat)
    requires t.Wf(n) && ReasonsOk(t, ca) && Live(ca, cr) && ClauseOk(ca[cr], n)
    requires t.lim == [] || !Locked(t, ca[cr], cr)
    ensures ReasonsOk(t, Deleted(ca, cr))
  {
    forall v: nat | v < |t.assigns|
      ensures ReasonOkAt(t, Deleted(ca, cr), v)
    {
      assert ReasonOkAt(t, ca, v);
      if t.Assigned(v) && t.level[v] > 0 {
        assert t.Levelled(v) && t.IsTrue(t.TrueLit(v));
      }
    }
  }

  lemma DeleteArena(ca: Arena, n: nat, f: Problem, cr: nat)
    requires ArenaOk(ca, n) && ArenaSound(ca, f) && cr in ca
    ensures cr in f.store
    ensures ArenaOk(Deleted(ca, cr), n) && ArenaSound(Deleted(ca, cr), Forgetting(f, cr))
  {
    var ca' := Deleted(ca, cr);
    assert ca[cr].(deleted := true).lits == ca[cr].lits;
    forall x | x in ca'
      ensures ClauseOk(ca'[x], n) && Entails(f.clauses, ca'[x].lits) && ContentOf(ca'[x]) == Forgetting(f, cr).store[x]
    {
      assert ClauseOk(ca[x], n) && Entails(f.clauses, ca[x].lits);
    }
  }

  /** removeClause, before a possible reason is cleared. */
  lemma DeleteStep(t: Trail, db: Db, d: Dirt, f: Problem, q: nat, cr: nat)
    requires Inv(t, db, d, f, q) && Live(db.ca, cr) && t.Sized(|t.assigns|) && ClauseOk(db.ca[cr], |t.assigns|)
    requires t.lim == [] || !Locked(t, db.ca[cr], cr)
    ensures cr in f.store
    ensures Inv(t, db.(ca := Deleted(db.ca, cr)), SmudgedFor(d, db.ca[cr]), Forgetting(f, cr), q)
  {
    hide ListsOk, Attached, ArenaOk, ArenaSound, ReasonsOk, Propagated, Clean;
    var n := |t.assigns|;
    DeleteArena(db.ca, n, f, cr);
    DeleteLists(db.ca, db.long, n, Long, cr);
    DeleteLists(db.ca, db.bin, n, Binary, cr);
    DeleteLists(db.ca, db.unary, n, Unary, cr);
    DeleteReasons(t, db.ca, n, cr);
    DeletePropagated(t, db.ca, db.long, q, cr);
    DeletePropagated(t, db.ca, db.bin, q, cr);
    DeletePropagated(t, db.ca, db.unary, q, cr);
    var d' := SmudgedFor(d, db.ca[cr]);
    DeleteClean(db.ca, db.long, n, Long, cr, d.long, d'.long);
    DeleteClean(db.ca, db.bin, n, Binary, cr, d.bin, d'.bin);
    DeleteClean(db.ca, db.unary, n, Unary, cr, d.unary, d'.unary);
    SmudgedDirt(d, db.ca[cr], n);
    assert RootSound(t, Forgetting(f, cr));
  }

  lemma SmudgedDirt(d: Dirt, c: ClauseRec, n: nat)
    requires DirtOk(d, n) && ClauseOk(c, n)
    ensures DirtOk(SmudgedFor(d, c), n)
  {
  }

  /** Clearing a reason at level 0. */
  function ReasonCleared(t: Trail, v: nat): Trail
    requires v < |t.reason|
  {
    t.(reason := t.reason[v := None])
  }

  lemma ClearReasonStep(t: Trail, db: Db, d: Dirt, f: Problem, q: nat, v: nat)
    requires Inv(t, db, d, f, q) && t.lim == [] && v < |t.reason|
    ensures Inv(ReasonCleared(t, v), db, d, f, q)
  {
    hide DbOk, Clean, DirtOk;
    var u := ReasonCleared(t, v);
    assert u.Indexed();
    forall w: nat | w < |u.assigns|
      ensures ReasonOkAt(u, db.ca, w)
    {
      assert ReasonOkAt(t, db.ca, w);
      if t.Assigned(w) {
        assert t.Levelled(w);
      }
    }
    assert forall w :: 0 <= w < |t.assigns| && u.assigns[w] != LUndef ==> t.Levelled(w);
    assert forall w: nat :: u.Assigned(w) ==> t.TrueLit(w) == u.TrueLit(w);
    SameAssignmentsPropagated(t, u, db.ca, db.long, q);
    SameAssignmentsPropagated(t, u, db.ca, db.bin, q);
    SameAssignmentsPropagated(t, u, db.ca, db.unary, q);
  }

  /** A clause that is not the reason of one of its first literals. */
  ghost predicate Unlocked(t: Trail, c: ClauseRec, cr: nat) {
    |c.lits| >= 2 && t.Sized(|t.assigns|) && c.lits[0].v < |t.assigns| && c.lits[1].v < |t.assigns| && !Locked(t, c, cr)
  }

  /** At level 0 any clause may be removed; above it only clauses that are not locked. */
  ghost predicate Removable(t: Trail, c: ClauseRec, cr: nat) {
    t.lim == [] || Unlocked(t, c, cr)
  }

  /** The trail after the removal of c, stored at cr: a locked clause is forgotten as the reason of
      its first literal. */
  function AfterRemoval(t: Trail, c: ClauseRec, cr: nat): Trail
    requires |c.lits| >= 2 && t.Sized(|t.assigns|) && c.lits[0].v < |t.assigns| && c.lits[1].v < |t.assigns|
  {
    if Locked(t, c, cr) then ReasonCleared(t, c.lits[0].v) else t
  }

  /** Some assigned variable has the clause cr as its reason. */
  ghost predicate IsReason(t: Trail, cr: nat) {
    exists v: nat :: t.Assigned(v) && v < |t.reason| && t.reason[v] == Some(cr)
  }

  /** A binary clause that propagated its second literal. */
  ghost predicate ForcedSecond(t: Trail, c: ClauseRec, cr: nat) {
    |c.lits| == 2 && t.IsTrue(c.lits[1]) && c.lits[1].v < |t.reason| && t.reason[c.lits[1].v] == Some(cr)
  }

  /** A removed clause is still some reason exactly if it is binary and propagated its second
      literal, at any level. */
  lemma ReasonLeft(t: Trail, ca: Arena, n: nat, cr: nat)
    requires t.Wf(n) && ReasonsOk(t, ca) && cr in ca && ClauseOk(ca[cr], n)
    ensures IsReason(AfterRemoval(t, ca[cr], cr), cr) <==> ForcedSecond(t, ca[cr], cr)
  {
    var c := ca[cr].lits;
    var u := AfterRemoval(t, ca[cr], cr);
    if ForcedSecond(t, ca[cr], cr) {
      assert u.Assigned(c[1].v) && u.reason[c[1].v] == Some(cr);
    }
    if IsReason(u, cr) {
      var v: nat :| u.Assigned(v) && u.reason[v] == Some(cr);
      assert ReasonOkAt(t, ca, v) && ReasonFor(t, c, t.TrueLit(v));
      assert t.IsTrue(t.TrueLit(v));
    }
  }

  /** Only reasons differ, and only at level 0. */
  ghost predicate SameButReasons(t: Trail, u: Trail) {
    u == t.(reason := u.reason) && |u.reason| == |t.reason| && (t.lim != [] ==> u == t)
  }

  lemma RemoveStep(t: Trail, db: Db, d: Dirt, f: Problem, q: nat, cr: nat)
    requires Inv(t, db, d, f, q) && Live(db.ca, cr) && Removable(t, db.ca[cr], cr)
    ensures cr in f.store && ClauseOk(db.ca[cr], |t.assigns|) && t.Sized(|t.assigns|)
    ensures IsReason(AfterRemoval(t, db.ca[cr], cr), cr) <==> ForcedSecond(t, db.ca[cr], cr)
    ensures var db' := db.(ca := Deleted(db.ca, cr)); var d' := SmudgedFor(d, db.ca[cr]); var v := db.ca[cr].lits[0].v;
            && Inv(t, db', d', Forgetting(f, cr), q)
            && (Locked(t, db.ca[cr], cr) ==> t.lim == [] && Inv(ReasonCleared(t, v), db', d', Forgetting(f, cr), q))
  {
    hide ListsOk, Attached, ArenaSound, ReasonsOk, Propagated, Clean, DirtOk;
    assert ClauseOk(db.ca[cr], |t.assigns|);
    ReasonLeft(t, db.ca, |t.assigns|, cr);
    hide Inv, IsReason, ForcedSecond;
    DeleteStep(t, db, d, f, q, cr);
    if Locked(t, db.ca[cr], cr) {
      ClearReasonStep(t, db.(ca := Deleted(db.ca, cr)), SmudgedFor(d, db.ca[cr]), Forgetting(f, cr), q, db.ca[cr].lits[0].v);
    }
  }

  lemma BaseFromInv(t: Trail, db: Db, d: Dirt, f: Problem, q: nat)
    requires Inv(t, db, d, f, q) && d == Dirt([], [], [])
    ensures BaseOk(t, db, |t.assigns|, f) && PropOk(t, db, q)
  {
    hide DbOk, TrailOk, PropOk, Clean;
  }

  // ---------- storing a clause while lists may be dirty ----------

  lemma AllocLazy(db: Db, d: Dirt, c: ClauseRec, size: nat)
    requires Lazy(db, d) && db.next !in db.ca
    ensures Lazy(Allocated(db, c, size), d)
  {
    assert forall x :: Live(db.ca, x) ==> Live(Allocated(db, c, size).ca, x);
  }

  /** Lists that gained nothing but the live clause cr. */
  lemma GainedLazy(ca: Arena, lists: Lists, lists': Lists, dirties: seq<Lit>, cr: nat)
    requires Clean(ca, lists, dirties) && Live(ca, cr)
    requires forall r: Lit, x :: RefIn(lists', r, x) ==> RefIn(lists, r, x) || x == cr
    ensures Clean(ca, lists', dirties)
  {
  }

  lemma AttachLazy(db: Db, n: nat, f: Problem, d: Dirt, cr: nat)
    requires DbOkBut(db, n, f, cr) && !db.ca[cr].oneWatched && Lazy(db, d) && ClauseOk(db.ca[cr], n)
    requires db.ca[cr].lits[0].Neg() in db.long && db.ca[cr].lits[1].Neg() in db.long
    requires db.ca[cr].lits[0].Neg() in db.bin && db.ca[cr].lits[1].Neg() in db.bin
    ensures Lazy(WithAttached(db, cr), d)
  {
    hide ArenaSound, ArenaOk, ListsOk, Attached, AttachedBut, Unlisted, Clean;
    var db' := WithAttached(db, cr);
    if |db.ca[cr].lits| == 2 {
      WatchedOk(db.ca, db.bin, n, Binary, cr);
      GainedLazy(db.ca, db.bin, db'.bin, d.bin, cr);
    } else {
      WatchedOk(db.ca, db.long, n, Long, cr);
      GainedLazy(db.ca, db.long, db'.long, d.long, cr);
    }
  }

  lemma PurgatoryLazy(db: Db, n: nat, f: Problem, d: Dirt, cr: nat)
    requires DbOkBut(db, n, f, cr) && db.ca[cr].oneWatched && Lazy(db, d) && ClauseOk(db.ca[cr], n)
    requires db.ca[cr].lits[0].Neg() in db.unary
    ensures Lazy(WithPurgatory(db, cr), d)
  {
    hide ArenaSound, ArenaOk, ListsOk, Attached, AttachedBut, Unlisted, Clean;
    WatchedOnceOk(db.ca, db.unary, n, cr, db.ca[cr].lits[1]);
    GainedLazy(db.ca, db.unary, WithPurgatory(db, cr).unary, d.unary, cr);
  }

  /** The first two literals need no propagation: the clause is exempt or they are unassigned. */
  ghost predicate Quiet(t: Trail, c: ClauseRec) {
    |c.lits| >= 2 && (c.imported || (t.IsUndef(c.lits[0]) && t.IsUndef(c.lits[1])))
  }

  lemma QuietPropagated(t: Trail, db: Db, cr: nat, q: nat, n: nat)
    requires Live(db.ca, cr) && !db.ca[cr].oneWatched && ClauseOk(db.ca[cr], n) && Quiet(t, db.ca[cr]) && PropOk(t, db, q)
    requires db.ca[cr].lits[0].Neg() in db.long && db.ca[cr].lits[1].Neg() in db.long
    requires db.ca[cr].lits[0].Neg() in db.bin && db.ca[cr].lits[1].Neg() in db.bin
    ensures PropOk(t, WithAttached(db, cr), q)
  {
    hide PropOk;
    AttachPropagated(t, db, cr, q);
  }

  lemma AllocInv(t: Trail, db: Db, d: Dirt, f: Problem, q: nat, c: ClauseRec)
    requires Inv(t, db, d, f, q) && ClauseOk(c, |t.assigns|) && Entails(f.clauses, c.lits) && !c.deleted
    ensures db.next !in db.ca && DirtOk(d, |t.assigns|) && Top(t) <= q <= |t.lits|
    ensures var db1 := Allocated(db, c, ClauseWords(c)); var f' := Storing(f, db.next, c);
            && DbOkBut(db1, |t.assigns|, f', db.next) && TrailOk(t, db1.ca, |t.assigns|, f') && Lazy(db1, d) && PropOk(t, db1, q)
  {
    hide DbOk, DbOkBut, TrailOk, PropOk, Lazy, DirtOk;
    AllocOk(db, |t.assigns|, f, c, ClauseWords(c));
    StoringTrail(t, db, |t.assigns|, f, c, db.next);
    FreshProp(t, db, |t.assigns|, f, c, ClauseWords(c), q);
    AllocLazy(db, d, c, ClauseWords(c));
  }

  /** A clause is stored and attached in its scheme. */
  lemma StoreStep(t: Trail, db: Db, d: Dirt, f: Problem, q: nat, c: ClauseRec)
    requires Inv(t, db, d, f, q) && ClauseOk(c, |t.assigns|) && Entails(f.clauses, c.lits) && !c.deleted && Quiet(t, c)
    requires c.oneWatched && Processed(t, c.lits[0].Neg(), q) ==> c.unseen
    ensures var db1 := Allocated(db, c, ClauseWords(c)); var p, r := c.lits[0].Neg(), c.lits[1].Neg();
            db.next !in db.ca && p in db1.long && r in db1.long && p in db1.bin && r in db1.bin && p in db1.unary
    ensures !c.oneWatched ==>
              Inv(t, WithAttached(Allocated(db, c, ClauseWords(c)), db.next), d, Storing(f, db.next, c), q)
    ensures c.oneWatched ==>
              Inv(t, WithPurgatory(Allocated(db, c, ClauseWords(c)), db.next), d, Storing(f, db.next, c), q)
  {
    hide DbOkBut, TrailOk, PropOk, Lazy, DirtOk, ClauseOk, Attached, ListOk, ArenaSound;
    var db1, f' := Allocated(db, c, ClauseWords(c)), Storing(f, db.next, c);
    AllocInv(t, db, d, f, q, c);
    AttachDomain(db, |t.assigns|, f, c);
    hide DbOk;
    if c.oneWatched {
      PurgatoryOk(db1, |t.assigns|, f', db.next);
      PurgatoryLazy(db1, |t.assigns|, f', d, db.next);
      PurgatoryPropagated(t, db1, db.next, q);
    } else {
      AttachOk(db1, |t.assigns|, f', db.next);
      AttachLazy(db1, |t.assigns|, f', d, db.next);
      QuietPropagated(t, db1, db.next, q, |t.assigns|);
    }
  }

  lemma PurgatoryPropagated(t: Trail, db: Db, cr: nat, q: nat)
    requires PropOk(t, db, q) && cr in db.ca && |db.ca[cr].lits| >= 2 && db.ca[cr].lits[0].Neg() in db.unary
    requires db.ca[cr].oneWatched && (Processed(t, db.ca[cr].lits[0].Neg(), q) ==> db.ca[cr].unseen)
    ensures PropOk(t, WithPurgatory(db, cr), q)
  {
    var c := db.ca[cr].lits;
    AppendKeepsPropagated(t, db.ca, db.unary, q, c[0].Neg(), Watcher(cr, c[1]));
  }

  lemma AttachDomain(db: Db, n: nat, f: Problem, c: ClauseRec)
    requires DbOk(db, n, f) && ClauseOk(c, n)
    ensures |c.lits| >= 2
    ensures var p, r := c.lits[0].Neg(), c.lits[1].Neg();
            p in db.long && r in db.long && p in db.bin && r in db.bin && p in db.unary
  {
    hide ArenaOk, ArenaSound, Attached;
    InDomain(db.ca, db.long, n, Long, c.lits);
    InDomain(db.ca, db.bin, n, Binary, c.lits);
    InDomain(db.ca, db.unary, n, Unary, c.lits);
  }

  /** Enqueueing an entailed literal at level 0. */
  lemma EnqueueRoot(t: Trail, db: Db, d: Dirt, f: Problem, q: nat, p: Lit)
    requires Inv(t, db, d, f, q) && t.lim == [] && t.IsUndef(p) && Entails(f.clauses, [p])
    ensures t.Wf(|t.assigns|) && Inv(t.Push(p, None), db, d, f, q)
  {
    hide DbOk, RootSound, ReasonsOk, Propagated, Lazy, DirtOk;
    PushFree(t, db.ca, |t.assigns|, f, p);
    PushPropagated(t, db.ca, |t.assigns|, db.long, q, p, None);
    PushPropagated(t, db.ca, |t.assigns|, db.bin, q, p, None);
    PushPropagated(t, db.ca, |t.assigns|, db.unary, q, p, None);
  }

  lemma PushGrows(t: Trail, n: nat, p: Lit, from: Option<nat>)
    requires t.Wf(n) && p.v < n && t.IsUndef(p)
    ensures Grows(t, t.Push(p, from))
  {
    forall i | 0 <= i < |t.lits|
      ensures SameLevel(t, t.Push(p, from), t.lits[i].v)
    {
      assert t.IsTrue(t.lits[i]);
    }
  }

  // ---------- clauses from other threads ----------

  /** What other threads have sent between two import points. */
  datatype Batch = Batch(units: seq<Lit>, clauses: seq<seq<Lit>>)

  /** At least n import points have been passed: so many batches are gone from the front, or all. */
  predicate Passed(before: seq<Batch>, after: seq<Batch>, n: nat) {
    && |after| <= |before| && after == before[|before| - |after|..]
    && (after == [] || |before| - |after| >= n)
  }

  lemma PassedNone(inbox: seq<Batch>)
    ensures Passed(inbox, inbox, 0)
  {
  }

  lemma PassedAtLeast(before: seq<Batch>, after: seq<Batch>, m: nat, n: nat)
    requires Passed(before, after, m) && n <= m
    ensures Passed(before, after, n)
  {
  }

  lemma PassedMore(before: seq<Batch>, between: seq<Batch>, after: seq<Batch>, m: nat, n: nat)
    requires Passed(before, between, m) && Passed(between, after, n)
    ensures Passed(before, after, m + n)
  {
    assert between[|between| - |after|..] == before[|before| - |after|..];
  }

  /** The record of a received clause: one-watched if it is long and may be taken back. */
  function ImportedRec(t: Trail, q: nat, c: seq<Lit>, plingeling: bool): ClauseRec
    requires c != []
  {
    var once := !plingeling && |c| > 2;
    ClauseRec(c, true, false, once, true, once && AlreadyFalse(t, q, c[0]))
  }

  /** l is false, and that has been propagated. */
  predicate AlreadyFalse(t: Trail, q: nat, l: Lit) {
    l.v < |t.assigns| && l.v < |t.pos| && Value(t.assigns, l) == LFalse && t.pos[l.v] < q
  }

  /** The trail once those of the units that are not assigned by then are enqueued, in order. */
  function WithUnits(t: Trail, units: seq<Lit>): (u: Trail)
    requires t.Sized(|t.assigns|) && forall i :: 0 <= i < |units| ==> units[i].v < |t.assigns|
    ensures u.Sized(|t.assigns|)
  {
    if units == [] then t
    else
      var u, l := WithUnits(t, units[..|units| - 1]), units[|units| - 1];
      if u.assigns[l.v] == LUndef then u.Push(l, None) else u
  }

  lemma NoUnits(t: Trail, units: seq<Lit>)
    requires t.Sized(|t.assigns|)
    ensures WithUnits(t, units[..0]) == t
  {
  }

  lemma OneMoreUnit(t: Trail, units: seq<Lit>, i: nat)
    requires t.Sized(|t.assigns|) && i < |units| && forall k :: 0 <= k < |units| ==> units[k].v < |t.assigns|
    ensures var u, l := WithUnits(t, units[..i]), units[i];
            u.Sized(|t.assigns|) && WithUnits(t, units[..i + 1]) == if u.IsUndef(l) then u.Push(l, None) else u
  {
    assert units[..i + 1][..i] == units[..i];
  }

  ghost predicate TakesUnits(t: Trail, units: seq<Lit>, u: Trail) {
    && t.Sized(|t.assigns|) && (forall i :: 0 <= i < |units| ==> units[i].v < |t.assigns|)
    && u == WithUnits(t, units)
  }

  /** The clauses before the first empty one. */
  function BeforeEmpty(cs: seq<seq<Lit>>): seq<seq<Lit>> {
    if cs == [] || cs[0] == [] then [] else [cs[0]] + BeforeEmpty(cs[1..])
  }

  lemma {:induction false} BeforeEmptyAt(cs: seq<seq<Lit>>, k: nat)
    requires k <= |cs| && [] !in cs[..k] && (k < |cs| ==> cs[k] == [])
    ensures BeforeEmpty(cs) == cs[..k] && ([] in cs <==> k < |cs|)
  {
    if k > 0 {
      assert cs[0] == cs[..k][0] && cs[1..][..k - 1] == cs[..k][1..];
      assert forall c :: c in cs[1..][..k - 1] ==> c in cs[..k];
      BeforeEmptyAt(cs[1..], k - 1);
      assert [] in cs <==> [] in cs[1..];
    }
  }

  /** The clauses cs are stored, in order, as received ones; what was there is as before. */
  ghost predicate Taken(ca0: Arena, crs0: seq<nat>, ca: Arena, crs: seq<nat>, cs: seq<seq<Lit>>, t: Trail, q: nat, plingeling: bool) {
    && |crs| == |crs0| + |cs| && crs[..|crs0|] == crs0
    && (forall x :: x in ca0 ==> x in ca && ca[x] == ca0[x])
    && (forall x :: x in ca && x !in ca0 ==> x in crs[|crs0|..])
    && (forall i :: 0 <= i < |cs| ==> TakenAs(ca0, ca, crs[|crs0| + i], cs[i], t, q, plingeling))
  }

  ghost predicate TakenAs(ca0: Arena, ca: Arena, cr: nat, c: seq<Lit>, t: Trail, q: nat, plingeling: bool) {
    c != [] && cr !in ca0 && cr in ca && ca[cr] == ImportedRec(t, q, c, plingeling)
  }

  lemma NothingTaken(ca: Arena, crs: seq<nat>, t: Trail, q: nat, plingeling: bool)
    ensures Taken(ca, crs, ca, crs, [], t, q, plingeling)
  {
  }

  lemma OneMoreTaken(ca0: Arena, crs0: seq<nat>, ca1: Arena, crs1: seq<nat>, ca: Arena, crs: seq<nat>, cs: seq<seq<Lit>>, c: seq<Lit>,
                     t: Trail, q: nat, plingeling: bool)
    requires Taken(ca0, crs0, ca1, crs1, cs, t, q, plingeling) && c != []
    requires exists cr :: cr !in ca1 && crs == crs1 + [cr] && ca == ca1[cr := ImportedRec(t, q, c, plingeling)]
    ensures Taken(ca0, crs0, ca, crs, cs + [c], t, q, plingeling)
  {
    var cr :| cr !in ca1 && crs == crs1 + [cr] && ca == ca1[cr := ImportedRec(t, q, c, plingeling)];
    assert crs[|crs0|..] == crs1[|crs0|..] + [cr];
    var more := cs + [c];
    forall i | 0 <= i < |more|
      ensures TakenAs(ca0, ca, crs[|crs0| + i], more[i], t, q, plingeling)
    {
      if i < |cs| {
        assert TakenAs(ca0, ca1, crs1[|crs0| + i], cs[i], t, q, plingeling);
      }
    }
  }

  lemma EmptyIsReceived(c: seq<Lit>, n: nat, f: Problem)
    requires ReceivedClause(c, n, f.clauses) && |c| == 0
    ensures Entails(f.clauses, [])
  {
    assert c == [];
  }

  /** A received clause follows from the problem; it has no repeated variable and is not a unit. */
  ghost predicate ReceivedClause(c: seq<Lit>, n: nat, f: set<seq<Lit>>) {
    Entails(f, c) && |c| != 1 && DistinctVars(c) && forall i :: 0 <= i < |c| ==> c[i].v < n
  }

  ghost predicate Importable(b: Batch, n: nat, f: set<seq<Lit>>) {
    && (forall i :: 0 <= i < |b.units| ==> b.units[i].v < n && Entails(f, [b.units[i]]))
    && (forall i :: 0 <= i < |b.clauses| ==> ReceivedClause(b.clauses[i], n, f))
  }

  ghost predicate InboxOk(inbox: seq<Batch>, n: nat, f: set<seq<Lit>>) {
    forall i :: 0 <= i < |inbox| ==> Importable(inbox[i], n, f)
  }

  lemma EmptyClauseRefutes(f: Problem)
    requires Entails(f.clauses, [])
    ensures Unsat(f.clauses)
  {
    forall m: Model
      ensures !SatAll(m, f.clauses)
    {
      assert !SatClause(m, []);
    }
  }

  // ---------- decision levels ----------

  /** The number of decision levels is bounded: beyond the assumptions no level is empty. */
  ghost predicate LevelsBounded(t: Trail, a: nat, top: nat) {
    LevelsUsed(t, a) && top == a + |t.assigns|
  }

  lemma LevelsFit(t: Trail, n: nat, a: nat, top: nat)
    requires t.Wf(n) && LevelsBounded(t, a, top)
    ensures |t.lim| <= top && TrailMeasure(t, top) <= n * Weight(n, top, 0)
  {
    TrailFits(t, n);
    TrailBound(t, n, top);
  }

  lemma GrowsBounded(t: Trail, u: Trail, a: nat, top: nat)
    requires Grows(t, u) && LevelsBounded(t, a, top)
    ensures LevelsBounded(u, a, top)
  {
  }

  /** An empty level for an assumption that is true already. */
  lemma DummyMeasure(t: Trail, n: nat, a: nat, top: nat)
    requires t.Wf(n) && LevelsBounded(t, a, top) && |t.lim| < a
    ensures t.NewLevel().Wf(n) && LevelsBounded(t.NewLevel(), a, top)
    ensures TrailMeasure(t.NewLevel(), top) == TrailMeasure(t, top)
  {
    NewLevelWf(t, n);
    assert LevelsOnTrail(t.NewLevel()) == LevelsOnTrail(t);
  }
}
