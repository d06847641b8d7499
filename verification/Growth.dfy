/** The state grows: a new variable, and a new problem clause. Nothing that held is lost. */
module Growth {
  import opened Wrappers
  import opened Cnf
  import opened TrailState
  import opened ClauseDb
  import opened Cuts
  import opened Invariants
  import opened Visits
  import opened Attach
  import opened PropagationQueue
  import opened SearchSteps
  import opened FinalConflict
  import opened ProblemClauses

  // ---------- a new variable ----------

  /** The trail with one more variable, unassigned. */
  function Wider(t: Trail): Trail {
    t.(assigns := t.assigns + [LUndef], level := t.level + [0], reason := t.reason + [None], pos := t.pos + [0])
  }

  /** Empty watcher lists for the two literals of a new variable. */
  function WiderLists(lists: Lists, v: nat): Lists {
    lists[Lit(v, false) := []][Lit(v, true) := []]
  }

  function WiderDb(db: Db, v: nat): Db {
    db.(long := WiderLists(db.long, v), bin := WiderLists(db.bin, v), unary := WiderLists(db.unary, v))
  }

  lemma WiderValues(t: Trail)
    requires t.Sized(|t.assigns|)
    ensures forall l: Lit :: (Wider(t).IsTrue(l) <==> t.IsTrue(l)) && (Wider(t).IsFalse(l) <==> t.IsFalse(l))
    ensures forall v: nat :: Wider(t).Assigned(v) <==> t.Assigned(v)
    ensures forall v: nat :: t.Assigned(v) ==> Wider(t).TrueLit(v) == t.TrueLit(v)
  {
  }

  lemma WiderSize(t: Trail)
    ensures Wider(t).assigns == t.assigns + [LUndef] && Wider(t).lim == t.lim && Wider(t).lits == t.lits
  {
  }

  lemma WiderTrail(t: Trail, ca: Arena, n: nat, f: Problem)
    requires TrailOk(t, ca, n, f)
    ensures TrailOk(Wider(t), ca, n + 1, f)
  {
    var u := Wider(t);
    WiderValues(t);
    forall v | 0 <= v < n + 1 && u.assigns[v] != LUndef
      ensures u.pos[v] < |u.lits| && u.lits[u.pos[v]].v == v && u.Levelled(v)
    {
      assert t.Levelled(v);
    }
    forall v: nat | v < n + 1
      ensures ReasonOkAt(u, ca, v)
    {
      if t.Assigned(v) {
        assert ReasonOkAt(t, ca, v);
        if t.level[v] > 0 && t.reason[v].Some? {
          KeepsReasonFor'(t, u, ca[t.reason[v].value].lits, v);
        }
      }
    }
  }

  lemma KeepsReasonFor'(t: Trail, u: Trail, c: seq<Lit>, v: nat)
    requires t.Sized(|t.assigns|) && u == Wider(t) && t.Assigned(v) && ReasonFor(t, c, t.TrueLit(v))
    ensures ReasonFor(u, c, u.TrueLit(v))
  {
    WiderValues(t);
    forall k | 0 <= k < |c| && c[k] != u.TrueLit(v)
      ensures FalseBefore(u, c[k], v)
    {
      assert FalseBefore(t, c[k], v);
    }
  }

  lemma WiderRefs(lists: Lists, v: nat)
    requires forall p: Lit :: p in lists <==> p.v < v
    ensures forall p: Lit, cr :: RefIn(WiderLists(lists, v), p, cr) <==> RefIn(lists, p, cr)
  {
  }

  lemma WiderScheme(ca: Arena, lists: Lists, n: nat, kind: Kind, dirties: seq<Lit>)
    requires ListsOk(ca, lists, n, kind) && Attached(ca, lists, kind) && Clean(ca, lists, dirties)
    ensures ListsOk(ca, WiderLists(lists, n), n + 1, kind) && Attached(ca, WiderLists(lists, n), kind)
    ensures Clean(ca, WiderLists(lists, n), dirties)
  {
    var lists' := WiderLists(lists, n);
    WiderRefs(lists, n);
    forall p: Lit
      ensures p in lists' <==> p.v < n + 1
    {
      assert p.v == n ==> p == Lit(n, p.neg);
    }
    forall p: Lit | p in lists'
      ensures ListOk(ca, lists'[p], p, kind)
    {
      if p.v < n {
        assert ListOk(ca, lists[p], p, kind);
      }
    }
    forall cr | Live(ca, cr)
      ensures AttachedAt(ca[cr], cr, lists', kind)
    {
      assert AttachedAt(ca[cr], cr, lists, kind);
    }
  }

  lemma WiderPropagated(t: Trail, ca: Arena, lists: Lists, q: nat)
    requires t.Sized(|t.assigns|) && Propagated(t, ca, lists, q)
    requires forall p: Lit :: p in lists <==> p.v < |t.assigns|
    ensures Propagated(Wider(t), ca, WiderLists(lists, |t.assigns|), q)
  {
    var u, lists' := Wider(t), WiderLists(lists, |t.assigns|);
    WiderValues(t);
    forall p: Lit | p in lists' && Processed(u, p, q)
      ensures SettledList(u, ca, lists'[p], p)
    {
      assert Processed(t, p, q) && lists'[p] == lists[p];
      forall i | 0 <= i < |lists[p]|
        ensures Settled(u, ca, lists[p][i], p)
      {
        assert Settled(t, ca, lists[p][i], p);
      }
    }
  }

  lemma WiderArena(ca: Arena, n: nat)
    requires ArenaOk(ca, n)
    ensures ArenaOk(ca, n + 1)
  {
    forall cr | cr in ca
      ensures ClauseOk(ca[cr], n + 1)
    {
      assert ClauseOk(ca[cr], n);
    }
  }

  /** newVar keeps the invariant. */
  lemma WiderInv(t: Trail, db: Db, d: Dirt, f: Problem, q: nat)
    requires Inv(t, db, d, f, q)
    ensures Inv(Wider(t), WiderDb(db, |t.assigns|), d, f, q)
  {
    hide ArenaOk, ArenaSound, Attached, ListOk, ReasonsOk, Propagated, Clean;
    var n := |t.assigns|;
    WiderTrail(t, db.ca, n, f);
    WiderArena(db.ca, n);
    WiderScheme(db.ca, db.long, n, Long, d.long);
    WiderScheme(db.ca, db.bin, n, Binary, d.bin);
    WiderScheme(db.ca, db.unary, n, Unary, d.unary);
    WiderPropagated(t, db.ca, db.long, q);
    WiderPropagated(t, db.ca, db.bin, q);
    WiderPropagated(t, db.ca, db.unary, q);
  }

  lemma WiderRecorded(t: Trail, f: Problem, clauses: seq<nat>, learnts: seq<nat>, imports: seq<nat>)
    requires t.Sized(|t.assigns|) && Recorded(t, f, clauses, learnts, imports)
    ensures Recorded(Wider(t), f, clauses, learnts, imports)
  {
    hide ListedAs, Complete;
    WiderValues(t);
    CompleteMore(t, Wider(t), f, clauses);
  }

  lemma WiderAssumed(t: Trail, assumptions: seq<Lit>)
    requires Assumed(t, assumptions)
    ensures Assumed(Wider(t), assumptions)
  {
    WiderValues(t);
    var u := Wider(t);
    forall v: nat | AssumptionLevel(u, v, |assumptions|) && u.reason[v].None?
      ensures u.TrueLit(v) in assumptions
    {
      assert t.Assigned(v) && AssumptionLevel(t, v, |assumptions|);
    }
  }

  // ---------- a new problem clause ----------

  ghost function Adding(f: Problem, c: seq<Lit>): Problem {
    f.(clauses := f.clauses + {c})
  }

  /** What followed from the problem still does. */
  lemma StillEntailed(f: Problem, c: seq<Lit>, e: seq<Lit>)
    requires Entails(f.clauses, e)
    ensures Entails(Adding(f, c).clauses, e)
  {
    forall m: Model | SatAll(m, Adding(f, c).clauses)
      ensures SatClause(m, e)
    {
      assert SatAll(m, f.clauses);
    }
  }

  lemma AddedSound(t: Trail, db: Db, n: nat, f: Problem, c: seq<Lit>)
    requires DbOk(db, n, f) && TrailOk(t, db.ca, n, f)
    ensures DbOk(db, n, Adding(f, c)) && TrailOk(t, db.ca, n, Adding(f, c))
  {
    hide ArenaOk, ListsOk, Attached, ReasonsOk;
    forall cr | cr in db.ca
      ensures Entails(Adding(f, c).clauses, db.ca[cr].lits)
    {
      StillEntailed(f, c, db.ca[cr].lits);
    }
    forall v: nat | t.Assigned(v) && t.level[v] == 0
      ensures Entails(Adding(f, c).clauses, [t.TrueLit(v)])
    {
      StillEntailed(f, c, [t.TrueLit(v)]);
    }
  }

  lemma AddedInv(t: Trail, db: Db, d: Dirt, f: Problem, q: nat, c: seq<Lit>)
    requires Inv(t, db, d, f, q)
    ensures Inv(t, db, d, Adding(f, c), q)
  {
    hide DbOk, TrailOk, PropOk, Lazy;
    AddedSound(t, db, |t.assigns|, f, c);
  }

  lemma AddedUnsat(f: Problem, c: seq<Lit>)
    requires Unsat(f.clauses)
    ensures Unsat(Adding(f, c).clauses)
  {
    forall m: Model
      ensures !SatAll(m, Adding(f, c).clauses)
    {
      assert !SatAll(m, f.clauses);
    }
  }

  // ---------- normalising a clause ----------

  /** The clause sorted by packed literal. */
  ghost predicate Sorted(c: seq<Lit>) {
    forall i, j :: 0 <= i < j < |c| ==> ToInt(c[i]) <= ToInt(c[j])
  }

  ghost predicate SameLits(c: seq<Lit>, d: seq<Lit>) {
    forall l :: l in c <==> l in d
  }

  /** The normalisation loop: kept holds the undecided literals of the sorted prefix before i,
      each variable once; the others of the prefix are false or repeated. */
  ghost predicate Normalised(t: Trail, c: seq<Lit>, kept: seq<Lit>, i: nat) {
    && i <= |c|
    && (forall k :: 0 <= k < |kept| ==> kept[k] in c[..i] && t.IsUndef(kept[k]))
    && (forall j, k :: 0 <= j < k < |kept| ==> kept[j].v < kept[k].v)
    && (forall l :: l in c[..i] ==> t.IsFalse(l) || l in kept)
  }

  lemma NormaliseSkip(t: Trail, c: seq<Lit>, kept: seq<Lit>, i: nat)
    requires Normalised(t, c, kept, i) && i < |c| && (t.IsFalse(c[i]) || (kept != [] && c[i] == kept[|kept| - 1]))
    ensures Normalised(t, c, kept, i + 1)
  {
    assert c[..i + 1] == c[..i] + [c[i]];
  }

  lemma NormaliseKeep(t: Trail, c: seq<Lit>, kept: seq<Lit>, i: nat)
    requires Normalised(t, c, kept, i) && i < |c| && Sorted(c) && t.IsUndef(c[i])
    requires kept != [] ==> c[i] != kept[|kept| - 1] && c[i] != kept[|kept| - 1].Neg()
    ensures Normalised(t, c, kept + [c[i]], i + 1)
  {
    assert c[..i + 1] == c[..i] + [c[i]];
    forall k | 0 <= k < |kept|
      ensures kept[k].v < c[i].v
    {
      assert kept[k].v <= kept[|kept| - 1].v;
      var last := kept[|kept| - 1];
      assert last in c[..i];
      var j :| 0 <= j < i && c[j] == last;
      assert ToInt(c[j]) <= ToInt(c[i]);
    }
  }

  /** A clause with a true literal at level 0 adds nothing. */
  lemma SatisfiedAdds(t: Trail, n: nat, f: Problem, clauses: seq<nat>, c: seq<Lit>, l: Lit)
    requires t.Wf(n) && t.lim == [] && Complete(t, f, clauses) && l in c && t.IsTrue(l)
    ensures Complete(t, Adding(f, c), clauses)
  {
    assert t.Levelled(l.v);
    forall m: Model | SatListed(m, Adding(f, c), clauses) && RootHolds(m, t)
      ensures SatAll(m, Adding(f, c).clauses)
    {
      assert SatListed(m, f, clauses);
      TrueMeansAgree(m, t, l);
      assert Agrees(m, t, l.v);
      SatClauseOf(m, c, l);
    }
  }

  lemma TautologyAdds(t: Trail, f: Problem, clauses: seq<nat>, c: seq<Lit>, l: Lit)
    requires Complete(t, f, clauses) && l in c && l.Neg() in c
    ensures Complete(t, Adding(f, c), clauses)
  {
    forall m: Model | SatListed(m, Adding(f, c), clauses) && RootHolds(m, t)
      ensures SatAll(m, Adding(f, c).clauses)
    {
      assert SatListed(m, f, clauses);
      if Holds(m, l) {
        SatClauseOf(m, c, l);
      } else {
        SatClauseOf(m, c, l.Neg());
      }
    }
  }

  /** The normalised clause follows from the problem with the clause. */
  lemma NormalisedEntailed(t: Trail, n: nat, f: Problem, c: seq<Lit>, d: seq<Lit>, kept: seq<Lit>)
    requires t.Wf(n) && t.lim == [] && RootSound(t, f) && SameLits(c, d) && Normalised(t, d, kept, |d|)
    ensures Entails(Adding(f, c).clauses, kept)
  {
    forall m: Model | SatAll(m, Adding(f, c).clauses)
      ensures SatClause(m, kept)
    {
      assert SatAll(m, f.clauses) && SatClause(m, c);
      var i :| 0 <= i < |c| && Holds(m, c[i]);
      assert c[i] in c && d[..|d|] == d;
      if t.IsFalse(c[i]) {
        assert t.Levelled(c[i].v);
        RootAgrees(m, t, f, c[i].v);
        FalseMeansDisagree(m, t, c[i]);
      } else {
        SatClauseOf(m, kept, c[i]);
      }
    }
  }

  /** The normalised clause says as much as the clause. */
  lemma NormalisedAdds(m: Model, c: seq<Lit>, d: seq<Lit>, kept: seq<Lit>, t: Trail)
    requires SameLits(c, d) && Normalised(t, d, kept, |d|) && SatClause(m, kept)
    ensures SatClause(m, c)
  {
    var k :| 0 <= k < |kept| && Holds(m, kept[k]);
    assert d[..|d|] == d;
    SatClauseOf(m, c, kept[k]);
  }

  /** Storing the normalised clause accounts for the new clause. */
  lemma StoredAdds(t: Trail, f: Problem, clauses: seq<nat>, c: seq<Lit>, d: seq<Lit>, kept: seq<Lit>, cr: nat)
    requires Complete(t, f, clauses) && ListedAs(f, clauses, false, false) && cr !in f.store
    requires SameLits(c, d) && Normalised(t, d, kept, |d|)
    ensures Complete(t, Storing(Adding(f, c), cr, ClauseRec(kept, false, false, false, false, false)), clauses + [cr])
  {
    var f' := Storing(Adding(f, c), cr, ClauseRec(kept, false, false, false, false, false));
    forall m: Model | SatListed(m, f', clauses + [cr]) && RootHolds(m, t)
      ensures SatAll(m, f'.clauses)
    {
      forall i | 0 <= i < |clauses| && clauses[i] in f.store
        ensures HoldsSome(m, f.store[clauses[i]].lits)
      {
        assert StoredAs(f, clauses[i], false, false);
        assert (clauses + [cr])[i] == clauses[i];
      }
      assert SatListed(m, f, clauses);
      assert (clauses + [cr])[|clauses|] == cr;
      assert HoldsSome(m, f'.store[cr].lits);
      var l :| l in f'.store[cr].lits && Holds(m, l);
      SatClauseOf(m, kept, l);
      NormalisedAdds(m, c, d, kept, t);
    }
  }

  /** Enqueueing the one literal left accounts for the new clause. */
  lemma UnitAdds(t: Trail, n: nat, f: Problem, clauses: seq<nat>, c: seq<Lit>, d: seq<Lit>, p: Lit)
    requires t.Wf(n) && t.lim == [] && t.IsUndef(p) && Complete(t, f, clauses) && SameLits(c, d) && Normalised(t, d, [p], |d|)
    ensures Complete(t.Push(p, None), Adding(f, c), clauses)
  {
    var u := t.Push(p, None);
    PushWf(t, n, p, None);
    CompletePush(t, n, f, clauses, p, None);
    forall m: Model | SatListed(m, Adding(f, c), clauses) && RootHolds(m, u)
      ensures SatAll(m, Adding(f, c).clauses)
    {
      assert SatListed(m, f, clauses);
      assert Agrees(m, u, p.v) && u.TrueLit(p.v) == p;
      SatClauseOf(m, [p], p);
      NormalisedAdds(m, c, d, [p], t);
    }
  }

  lemma InsertSorted(r: seq<Lit>, j: nat, p: Lit)
    requires j <= |r| && Sorted(r)
    requires forall k :: j <= k < |r| ==> ToInt(p) < ToInt(r[k])
    requires j > 0 ==> ToInt(r[j - 1]) <= ToInt(p)
    ensures Sorted(r[..j] + [p] + r[j..])
    ensures forall l :: l in r[..j] + [p] + r[j..] <==> l in r || l == p
  {
    hide ToInt;
    var s := r[..j] + [p] + r[j..];
    forall i, k | 0 <= i < k < |s|
      ensures ToInt(s[i]) <= ToInt(s[k])
    {
      if i < j {
        assert ToInt(r[i]) <= ToInt(r[j - 1]);
      }
    }
    forall l
      ensures l in s <==> l in r || l == p
    {
      assert r == r[..j] + r[j..];
    }
  }

  /** Sorts literals by their packed form. */
  method SortLits(ps: seq<Lit>) returns (r: seq<Lit>)
    ensures Sorted(r) && SameLits(ps, r)
  {
    r := [];
    for i := 0 to |ps|
      invariant Sorted(r) && SameLits(ps[..i], r)
    {
      var j := |r|;
      while j > 0 && ToInt(ps[i]) < ToInt(r[j - 1])
        invariant 0 <= j <= |r| && forall k :: j <= k < |r| ==> ToInt(ps[i]) < ToInt(r[k])
      {
        j := j - 1;
      }
      assert ps[..i + 1] == ps[..i] + [ps[i]];
      InsertSorted(r, j, ps[i]);
      r := r[..j] + [ps[i]] + r[j..];
    }
    assert ps[..|ps|] == ps;
  }

  /** Drops false and repeated literals from a sorted clause. Redundant means that it has a true
      literal or a complementary pair. */
  method Normalise(t: Trail, d: seq<Lit>) returns (kept: seq<Lit>, redundant: bool)
    requires Sorted(d) && forall i :: 0 <= i < |d| ==> d[i].v < |t.assigns|
    ensures redundant ==> exists l :: l in d && (t.IsTrue(l) || l.Neg() in d)
    ensures !redundant ==> Normalised(t, d, kept, |d|)
  {
    kept := [];
    var i := 0;
    while i < |d|
      invariant i <= |d| && Normalised(t, d, kept, i)
    {
      if Value(t.assigns, d[i]) == LTrue || (kept != [] && d[i] == kept[|kept| - 1].Neg()) {
        assert d[i] in d;
        assert t.IsTrue(d[i]) || (kept[|kept| - 1] in d && d[i].Neg() == kept[|kept| - 1]);
        return kept, true;
      }
      if Value(t.assigns, d[i]) != LFalse && (kept == [] || d[i] != kept[|kept| - 1]) {
        NormaliseKeep(t, d, kept, i);
        kept := kept + [d[i]];
      } else {
        NormaliseSkip(t, d, kept, i);
      }
      i := i + 1;
    }
    return kept, false;
  }
}
