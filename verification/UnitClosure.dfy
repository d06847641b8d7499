/** Plain unit propagation over the clause store of the preprocessor. */
module UnitClosure {
  import opened Wrappers
  import opened Cnf
  import opened TrailState
  import opened Cuts
  import opened PropagationQueue
  import opened ProblemClauses
  import opened Occurrences
  import opened Subsumption
  import opened Resolution

  datatype Verdict = Satisfied | Falsified | Forced(l: Lit) | Undecided

  /** Everything in c but l is false, and l is open. */
  ghost predicate ForcedBy(t: Trail, c: seq<Lit>, l: Lit) {
    l in c && t.IsUndef(l) && forall x :: x in c && x != l ==> t.IsFalse(x)
  }

  method Examine(t: Trail, c: seq<Lit>) returns (r: Verdict)
    requires InRange(c, |t.assigns|) && DistinctVars(c)
    ensures match r
            case Satisfied => HasTrue(t, c)
            case Falsified => AllFalse(t, c)
            case Forced(l) => ForcedBy(t, c, l)
            case Undecided => Stable(t, c)
  {
    var found: Option<Lit> := None;
    for i := 0 to |c|
      invariant found.None? ==> forall k :: 0 <= k < i ==> t.IsFalse(c[k])
      invariant found.Some? ==> exists k :: 0 <= k < i && c[k] == found.value
      invariant found.Some? ==> t.IsUndef(found.value) && forall k :: 0 <= k < i && c[k] != found.value ==> t.IsFalse(c[k])
    {
      match Value(t.assigns, c[i])
      case LTrue =>
        return Satisfied;
      case LFalse =>
      case LUndef =>
        if found.Some? {
          return Undecided;
        }
        found := Some(c[i]);
    }
    if found.Some? {
      return Forced(found.value);
    }
    return Falsified;
  }

  /** t continues t0: what was assigned stays. */
  ghost predicate Continues(t0: Trail, t: Trail) {
    && t.lim == t0.lim && |t.assigns| == |t0.assigns| && t0.lits <= t.lits
    && forall v: nat :: t0.Assigned(v) ==> t.assigns[v] == t0.assigns[v]
  }

  lemma ContinuesHolds(m: Model, t0: Trail, t: Trail)
    requires Continues(t0, t) && TrailHolds(m, t)
    ensures TrailHolds(m, t0)
  {
    forall v: nat | t0.Assigned(v)
      ensures Agrees(m, t0, v)
    {
      assert t.Assigned(v) && Agrees(m, t, v);
    }
  }

  /** What propagation found holds in every model of the clauses and the trail. */
  ghost predicate Sound(ca: Store, t0: Trail, t: Trail, conflict: bool) {
    forall m: Model :: ClausesHold(m, ca) && TrailHolds(m, t0) ==> !conflict && TrailHolds(m, t)
  }

  ghost predicate FineList(ca: Store, crs: seq<nat>, n: nat) {
    forall i :: 0 <= i < |crs| ==> crs[i] in ca && (Alive(ca, crs[i]) ==> Fine(ca[crs[i]], n))
  }

  ghost predicate StableList(ca: Store, crs: seq<nat>, t: Trail, k: nat) {
    forall i :: 0 <= i < k && i < |crs| && Alive(ca, crs[i]) ==> Stable(t, ca[crs[i]].lits)
  }

  /** u agrees with all that t says. */
  ghost predicate Keeps(t: Trail, u: Trail) {
    |u.assigns| == |t.assigns| && forall l: Lit :: t.IsTrue(l) ==> u.IsTrue(l)
  }

  /** u agrees with t0 and leaves no clause falsified or unit. */
  ghost predicate Fixpoint(ca: Store, crs: seq<nat>, t0: Trail, u: Trail) {
    Keeps(t0, u) && StableList(ca, crs, u, |crs|)
  }

  /** t says only what every fixpoint says; after a conflict there is none. */
  ghost predicate Least(ca: Store, crs: seq<nat>, t0: Trail, t: Trail, conflict: bool) {
    forall u: Trail :: Fixpoint(ca, crs, t0, u) ==> !conflict && Keeps(t, u)
  }

  lemma KeepsFalse(t: Trail, u: Trail, l: Lit)
    requires Keeps(t, u)
    ensures t.IsFalse(l) ==> u.IsFalse(l)
  {
    assert t.IsFalse(l) ==> t.IsTrue(l.Neg());
  }

  lemma ForcedLeast(ca: Store, crs: seq<nat>, t0: Trail, t: Trail, i: nat, l: Lit)
    requires Least(ca, crs, t0, t, false) && i < |crs| && Alive(ca, crs[i]) && ForcedBy(t, ca[crs[i]].lits, l)
    requires t.Sized(|t.assigns|) && DistinctVars(ca[crs[i]].lits)
    ensures Least(ca, crs, t0, t.Push(l, None), false)
  {
    var c := ca[crs[i]].lits;
    forall u: Trail | Fixpoint(ca, crs, t0, u)
      ensures Keeps(t.Push(l, None), u)
    {
      assert Stable(u, c) && Keeps(t, u);
      OnlyOneLeft(t, u, c, l);
    }
  }

  lemma OnlyOneLeft(t: Trail, u: Trail, c: seq<Lit>, l: Lit)
    requires Keeps(t, u) && ForcedBy(t, c, l) && Stable(u, c) && DistinctVars(c)
    ensures u.IsTrue(l)
  {
    forall k | 0 <= k < |c| && c[k] != l
      ensures u.IsFalse(c[k])
    {
      assert c[k] in c;
      KeepsFalse(t, u, c[k]);
    }
  }

  lemma FalsifiedLeast(ca: Store, crs: seq<nat>, t0: Trail, t: Trail, i: nat)
    requires Least(ca, crs, t0, t, false) && i < |crs| && Alive(ca, crs[i]) && AllFalse(t, ca[crs[i]].lits)
    ensures Least(ca, crs, t0, t, true)
  {
    var c := ca[crs[i]].lits;
    forall u: Trail | Keeps(t0, u)
      ensures !StableList(ca, crs, u, |crs|)
    {
      if Keeps(t, u) {
        forall k | 0 <= k < |c|
          ensures u.IsFalse(c[k])
        {
          KeepsFalse(t, u, c[k]);
        }
      } else {
        assert !Fixpoint(ca, crs, t0, u);
      }
    }
  }

  lemma ContinuesKeeps(t: Trail, u: Trail)
    requires Continues(t, u)
    ensures Keeps(t, u)
  {
    forall l: Lit | t.IsTrue(l)
      ensures u.IsTrue(l)
    {
      assert t.Assigned(l.v);
    }
  }

  lemma ForcedSound(ca: Store, t0: Trail, t: Trail, n: nat, cr: nat, l: Lit)
    requires t.Wf(n) && Sound(ca, t0, t, false) && Alive(ca, cr) && ForcedBy(t, ca[cr].lits, l) && l.v < n
    ensures Sound(ca, t0, t.Push(l, None), false)
  {
    forall m: Model | ClausesHold(m, ca) && TrailHolds(m, t0)
      ensures TrailHolds(m, t.Push(l, None))
    {
      var c := ca[cr].lits;
      assert TrailHolds(m, t) && SatClause(m, c);
      var i :| 0 <= i < |c| && Holds(m, c[i]);
      assert c[i] in c;
      TrueHolds(m, t, c[i]);
      PushHolds(m, t, n, l, None);
    }
  }

  lemma FalsifiedSound(ca: Store, t0: Trail, t: Trail, cr: nat)
    requires Sound(ca, t0, t, false) && Alive(ca, cr) && AllFalse(t, ca[cr].lits)
    ensures Sound(ca, t0, t, true)
  {
    forall m: Model
      ensures !(ClausesHold(m, ca) && TrailHolds(m, t0))
    {
      var c := ca[cr].lits;
      if TrailHolds(m, t) {
        forall i | 0 <= i < |c|
          ensures !Holds(m, c[i])
        {
          TrueHolds(m, t, c[i]);
        }
        assert !SatClause(m, c);
      }
    }
  }

  lemma PushContinues(t0: Trail, t: Trail, n: nat, l: Lit)
    requires t.Wf(n) && Continues(t0, t) && l.v < n && t.IsUndef(l)
    ensures Continues(t0, t.Push(l, None))
  {
  }

  lemma ForcedInRange(t: Trail, c: seq<Lit>, l: Lit)
    requires ForcedBy(t, c, l)
    ensures t.IsUndef(l) && l.v < |t.assigns|
  {
  }

  /** Propagates to the fixpoint: the trail found holds in every model and says no more than every
      fixpoint must. Without a conflict no clause is falsified or unit, with one there is no fixpoint. */
  method UnitPropagate(ca: Store, crs: seq<nat>, t0: Trail) returns (conflict: bool, t: Trail)
    requires t0.Wf(|t0.assigns|) && FineList(ca, crs, |t0.assigns|)
    ensures t.Wf(|t0.assigns|) && Continues(t0, t) && Sound(ca, t0, t, conflict)
    ensures !conflict ==> StableList(ca, crs, t, |crs|)
    ensures Least(ca, crs, t0, t, conflict) && (!conflict ==> Fixpoint(ca, crs, t0, t))
  {
    ghost var n := |t0.assigns|;
    hide Sound, FineList, Continues, Stable, Least, Keeps;
    StartLeast(ca, crs, t0);
    t := t0;
    StartSound(ca, t0);
    var changed := true;
    while changed
      invariant t.Wf(n) && Continues(t0, t) && Sound(ca, t0, t, false) && |t.assigns| == n
      invariant !changed ==> StableList(ca, crs, t, |crs|)
      invariant Least(ca, crs, t0, t, false)
      decreases n - |t.lits|, changed
    {
      ghost var before := t;
      TrailFits(t, n);
      conflict, changed, t := OnePass(ca, crs, t0, t);
      if conflict {
        return;
      }
      TrailFits(t, n);
    }
    ContinuesKeeps(t0, t);
    return false, t;
  }

  lemma StartLeast(ca: Store, crs: seq<nat>, t: Trail)
    ensures Least(ca, crs, t, t, false)
  {
  }

  lemma StartSound(ca: Store, t: Trail)
    ensures Sound(ca, t, t, false) && Continues(t, t)
  {
  }

  /** One pass over all clauses. */
  method OnePass(ca: Store, crs: seq<nat>, ghost t0: Trail, t1: Trail) returns (conflict: bool, changed: bool, t: Trail)
    requires t1.Wf(|t1.assigns|) && FineList(ca, crs, |t1.assigns|) && Continues(t0, t1) && Sound(ca, t0, t1, false)
    requires Least(ca, crs, t0, t1, false)
    ensures t.Wf(|t1.assigns|) && Continues(t0, t) && Sound(ca, t0, t, conflict) && |t.assigns| == |t1.assigns|
    ensures !conflict && changed ==> |t.lits| > |t1.lits|
    ensures !conflict && !changed ==> t == t1 && StableList(ca, crs, t, |crs|)
    ensures Least(ca, crs, t0, t, conflict)
  {
    ghost var n := |t1.assigns|;
    hide Sound, Continues, Stable, Fine, Least;
    t, changed := t1, false;
    for i := 0 to |crs|
      invariant t.Wf(n) && Continues(t0, t) && Sound(ca, t0, t, false) && |t.assigns| == n
      invariant changed ==> |t.lits| > |t1.lits|
      invariant !changed ==> t == t1 && StableList(ca, crs, t, i)
      invariant Least(ca, crs, t0, t, false)
    {
      if !ca[crs[i]].deleted {
        FineShape(ca[crs[i]], n);
        var c := ca[crs[i]].lits;
        var r := Examine(t, c);
        if r.Falsified? {
          FalsifiedSound(ca, t0, t, crs[i]);
          FalsifiedLeast(ca, crs, t0, t, i);
          return true, changed, t;
        }
        if r.Forced? {
          ForcedInRange(t, c, r.l);
          ForcedSound(ca, t0, t, n, crs[i], r.l);
          ForcedLeast(ca, crs, t0, t, i, r.l);
          PushContinues(t0, t, n, r.l);
          PushWf(t, n, r.l, None);
          t := t.Push(r.l, None);
          changed := true;
        }
        if r.Satisfied? {
          TrueIsStable(t, c);
        }
      }
    }
    return false, changed, t;
  }

  lemma FineShape(c: Cls, n: nat)
    requires Fine(c, n)
    ensures DistinctVars(c.lits) && InRange(c.lits, n)
  {
  }

  lemma TrueIsStable(t: Trail, c: seq<Lit>)
    requires HasTrue(t, c)
    ensures Stable(t, c)
  {
  }

  // ---------- implied clauses ----------

  /** Every literal of c is false. */
  ghost predicate NoneOpen(t: Trail, c: seq<Lit>, i: nat) {
    forall k :: 0 <= k < i && k < |c| ==> t.IsFalse(c[k])
  }

  /** t adds to t0 the negations of some literals of c: a model that makes c false satisfies t. */
  ghost predicate Refuting(t0: Trail, t: Trail, c: seq<Lit>) {
    forall m: Model :: TrailHolds(m, t0) && !SatClause(m, c) ==> TrailHolds(m, t)
  }

  /** Assuming the negation of c and propagating yields a conflict: c follows. */
  method Implied(ca: Store, crs: seq<nat>, t0: Trail, c: seq<Lit>) returns (r: bool)
    requires t0.Wf(|t0.assigns|) && FineList(ca, crs, |t0.assigns|) && InRange(c, |t0.assigns|)
    requires forall cr :: Alive(ca, cr) ==> cr in crs
    ensures r ==> forall m: Model :: ClausesHold(m, ca) && TrailHolds(m, t0) ==> SatClause(m, c)
    ensures forall x, y, v :: ResolvesFrom(ca, t0, c, x, y, v) ==> r || OpenTrue(t0, c)
  {
    ghost var n := |t0.assigns|;
    hide FineList, Continues, Sound;
    NewLevelWf(t0, n);
    var t := t0.NewLevel();
    LevelOnly(t0, c);
    for i := 0 to |c|
      invariant t.Wf(n) && |t.assigns| == n && NoneOpen(t, c, i) && Refuting(t0, t, c) && Continues(t0.NewLevel(), t)
      invariant forall l: Lit :: t.IsTrue(l) ==> t0.IsTrue(l) || exists k :: 0 <= k < i && c[k] == l.Neg()
    {
      match Value(t.assigns, c[i])
      case LTrue =>
        WasTrue(t0, t, c, i);
        return false;
      case LFalse =>
      case LUndef =>
        RefutePush(t0, t, n, c, i);
        t := t.Push(c[i].Neg(), None);
    }
    var conflict, t' := UnitPropagate(ca, crs, t);
    if conflict {
      ImpliedSound(ca, t0, t, t', c);
    } else {
      forall x, y, v
        ensures !ResolvesFrom(ca, t0, c, x, y, v)
      {
        MustConflict(ca, crs, t, t', c, x, y, v, t0);
      }
    }
    return conflict;
  }

  lemma LevelOnly(t: Trail, c: seq<Lit>)
    ensures Refuting(t, t.NewLevel(), c) && Continues(t.NewLevel(), t.NewLevel())
    ensures forall l: Lit :: t.NewLevel().IsTrue(l) <==> t.IsTrue(l)
  {
    var u := t.NewLevel();
    forall m: Model | TrailHolds(m, t)
      ensures TrailHolds(m, u)
    {
      forall v: nat | u.Assigned(v)
        ensures Agrees(m, u, v)
      {
        assert t.Assigned(v) && Agrees(m, t, v);
      }
    }
  }

  /** c has a true literal on t0, or a complementary pair. */
  ghost predicate OpenTrue(t0: Trail, c: seq<Lit>) {
    exists l :: l in c && (t0.IsTrue(l) || l.Neg() in c)
  }

  lemma WasTrue(t0: Trail, t: Trail, c: seq<Lit>, i: nat)
    requires i < |c| && t.IsTrue(c[i])
    requires t0.IsTrue(c[i]) || exists k :: 0 <= k < i && c[k] == c[i].Neg()
    ensures OpenTrue(t0, c)
  {
    assert c[i] in c;
  }

  lemma RefutePush(t0: Trail, t: Trail, n: nat, c: seq<Lit>, i: nat)
    requires t.Wf(n) && i < |c| && c[i].v < n && t.IsUndef(c[i]) && NoneOpen(t, c, i) && Refuting(t0, t, c)
    requires Continues(t0.NewLevel(), t)
    ensures var u := t.Push(c[i].Neg(), None);
            u.Wf(n) && NoneOpen(u, c, i + 1) && Refuting(t0, u, c) && Continues(t0.NewLevel(), u)
            && forall l: Lit :: u.IsTrue(l) ==> t.IsTrue(l) || l == c[i].Neg()
  {
    var u := t.Push(c[i].Neg(), None);
    PushWf(t, n, c[i].Neg(), None);
    forall k | 0 <= k < i + 1
      ensures u.IsFalse(c[k])
    {
      assert k < i ==> t.IsFalse(c[k]);
    }
    forall m: Model | TrailHolds(m, t0) && !SatClause(m, c)
      ensures TrailHolds(m, u)
    {
      PushHolds(m, t, n, c[i].Neg(), None);
      assert c[i] in c;
      assert Holds(m, c[i]) ==> SatClause(m, c);
    }
  }

  lemma ImpliedSound(ca: Store, t0: Trail, t: Trail, t': Trail, c: seq<Lit>)
    requires Refuting(t0, t, c) && Sound(ca, t, t', true)
    ensures forall m: Model :: ClausesHold(m, ca) && TrailHolds(m, t0) ==> SatClause(m, c)
  {
  }

  /** c contains the resolvent of two live clauses on the unassigned variable v. */
  ghost predicate ResolvesFrom(ca: Store, t: Trail, c: seq<Lit>, x: nat, y: nat, v: nat) {
    && Alive(ca, x) && Alive(ca, y) && DistinctVars(ca[x].lits) && DistinctVars(ca[y].lits)
    && Lit(v, false) in ca[x].lits && Lit(v, true) in ca[y].lits
    && forall l :: l in Resolvent(ca[x].lits, ca[y].lits, v) ==> l in c
  }

  /** Propagating the negation of a resolvent runs into its parents. */
  lemma MustConflict(ca: Store, crs: seq<nat>, t: Trail, t': Trail, c: seq<Lit>, x: nat, y: nat, v: nat, t0: Trail)
    requires NoneOpen(t, c, |c|) && Continues(t, t')
    requires StableList(ca, crs, t', |crs|) && forall cr :: Alive(ca, cr) ==> cr in crs
    ensures !ResolvesFrom(ca, t0, c, x, y, v)
  {
    if ResolvesFrom(ca, t0, c, x, y, v) {
      ParentForced(ca, crs, x, t', Lit(v, false), t, c);
      ParentForced(ca, crs, y, t', Lit(v, true), t, c);
    }
  }

  lemma ParentForced(ca: Store, crs: seq<nat>, x: nat, t': Trail, s: Lit, t: Trail, c: seq<Lit>)
    requires Alive(ca, x) && x in crs && StableList(ca, crs, t', |crs|)
    requires s in ca[x].lits && DistinctVars(ca[x].lits) && NoneOpen(t, c, |c|) && Continues(t, t')
    requires forall l :: l in ca[x].lits && l.v != s.v ==> l in c
    ensures t'.IsTrue(s)
  {
    var i :| 0 <= i < |crs| && crs[i] == x;
    LeftForced(ca[x].lits, t', s, t, c);
  }

  lemma LeftForced(p: seq<Lit>, t': Trail, s: Lit, t: Trail, c: seq<Lit>)
    requires s in p && DistinctVars(p) && NoneOpen(t, c, |c|) && Continues(t, t')
    requires forall l :: l in p && l.v != s.v ==> l in c
    ensures Stable(t', p) ==> t'.IsTrue(s)
  {
    var k :| 0 <= k < |p| && p[k] == s;
    forall i | 0 <= i < |p| && i != k
      ensures t'.IsFalse(p[i])
    {
      assert p[i] in p && p[i].v != s.v;
      var j :| 0 <= j < |c| && c[j] == p[i];
      assert t.IsFalse(c[j]) && t.Assigned(c[j].v);
    }
  }
}
