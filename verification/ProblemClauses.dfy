/** What the lists of clauses mean: the problem clauses still stored say, together with the
    level 0 literals, what the problem says. */
module ProblemClauses {
  import opened Wrappers
  import opened Cnf
  import opened TrailState
  import opened ClauseDb
  import opened Cuts
  import opened Invariants
  import opened Attach
  import opened Visits
  import opened PropagationQueue
  import opened Analysis
  import opened Minimise
  import opened SearchSteps
  import opened FinalConflict

  ghost predicate HoldsSome(m: Model, ls: set<Lit>) {
    exists l :: l in ls && Holds(m, l)
  }

  /** m satisfies all listed clauses. */
  ghost predicate SatListed(m: Model, f: Problem, clauses: seq<nat>) {
    forall i :: 0 <= i < |clauses| && clauses[i] in f.store ==> HoldsSome(m, f.store[clauses[i]].lits)
  }

  ghost predicate RootHolds(m: Model, t: Trail) {
    forall v: nat :: t.Assigned(v) && v < |t.level| && t.level[v] == 0 ==> Agrees(m, t, v)
  }

  /** The listed clauses and the level 0 literals together entail the problem. */
  ghost predicate Complete(t: Trail, f: Problem, clauses: seq<nat>) {
    forall m: Model :: SatListed(m, f, clauses) && RootHolds(m, t) ==> SatAll(m, f.clauses)
  }

  /** clauses lists the stored problem clauses, which together with level 0 say what the problem
      says; learnts lists own learnt clauses, imports received ones. */
  ghost predicate Recorded(t: Trail, f: Problem, clauses: seq<nat>, learnts: seq<nat>, imports: seq<nat>) {
    && ListedAs(f, clauses, false, false) && ListedAs(f, learnts, true, false) && ListedAs(f, imports, true, true)
    && Complete(t, f, clauses)
  }

  ghost predicate ListedAs(f: Problem, crs: seq<nat>, learnt: bool, imported: bool) {
    && (forall i :: 0 <= i < |crs| ==> StoredAs(f, crs[i], learnt, imported))
    && (forall i, j :: 0 <= i < j < |crs| ==> crs[i] != crs[j])
  }

  ghost predicate StoredAs(f: Problem, cr: nat, learnt: bool, imported: bool) {
    cr in f.store && !f.store[cr].deleted && f.store[cr].learnt == learnt && f.store[cr].imported == imported
  }

  /** The level 0 part of the trail is kept by everything but new level 0 literals. */
  lemma CompleteMore(t: Trail, u: Trail, f: Problem, clauses: seq<nat>)
    requires Complete(t, f, clauses)
    requires forall v: nat :: t.Assigned(v) && v < |t.level| && t.level[v] == 0 ==>
               v < |u.level| && u.Assigned(v) && u.level[v] == 0 && u.assigns[v] == t.assigns[v]
    ensures Complete(u, f, clauses)
  {
    forall m: Model | SatListed(m, f, clauses) && RootHolds(m, u)
      ensures SatAll(m, f.clauses)
    {
      forall v: nat | t.Assigned(v) && v < |t.level| && t.level[v] == 0
        ensures Agrees(m, t, v)
      {
        assert Agrees(m, u, v);
      }
    }
  }

  lemma CompleteExtends(t: Trail, u: Trail, n: nat, f: Problem, clauses: seq<nat>)
    requires t.Wf(n) && u.Wf(n) && Extends(t, u) && Complete(t, f, clauses)
    ensures Complete(u, f, clauses)
  {
    forall v: nat | t.Assigned(v)
      ensures u.Assigned(v) && u.level[v] == t.level[v] && u.assigns[v] == t.assigns[v]
    {
      assert SameVar(t, u, v);
    }
    CompleteMore(t, u, f, clauses);
  }

  lemma CompleteCancel(t: Trail, n: nat, f: Problem, clauses: seq<nat>, k: nat)
    requires t.Wf(n) && k < |t.lim| && Complete(t, f, clauses)
    ensures Complete(t.Cancel(k), f, clauses)
  {
    CancelWf(t, n, k);
    CompleteMore(t, t.Cancel(k), f, clauses);
  }

  lemma CompletePush(t: Trail, n: nat, f: Problem, clauses: seq<nat>, p: Lit, from: Option<nat>)
    requires t.Wf(n) && p.v < n && t.IsUndef(p) && Complete(t, f, clauses)
    ensures Complete(t.Push(p, from), f, clauses)
  {
    CompleteMore(t, t.Push(p, from), f, clauses);
  }

  lemma CompleteNewLevel(t: Trail, n: nat, f: Problem, clauses: seq<nat>)
    requires t.Wf(n) && Complete(t, f, clauses)
    ensures Complete(t.NewLevel(), f, clauses)
  {
    CompleteMore(t, t.NewLevel(), f, clauses);
  }

  /** Storing another clause changes nothing. */
  lemma StoreListed(f: Problem, crs: seq<nat>, learnt: bool, imported: bool, cr: nat, c: ClauseRec)
    requires ListedAs(f, crs, learnt, imported) && cr !in f.store
    ensures ListedAs(Storing(f, cr, c), crs, learnt, imported)
    ensures !c.deleted && c.learnt == learnt && c.imported == imported ==>
              ListedAs(Storing(f, cr, c), crs + [cr], learnt, imported)
  {
    var f' := Storing(f, cr, c);
    forall i | 0 <= i < |crs|
      ensures crs[i] != cr && StoredAs(f', crs[i], learnt, imported)
    {
      assert StoredAs(f, crs[i], learnt, imported);
    }
    if !c.deleted && c.learnt == learnt && c.imported == imported {
      assert StoredAs(f', cr, learnt, imported);
    }
  }

  lemma CompleteStore(t: Trail, f: Problem, clauses: seq<nat>, cr: nat, c: ClauseRec)
    requires Complete(t, f, clauses) && ListedAs(f, clauses, false, false) && cr !in f.store
    ensures Complete(t, Storing(f, cr, c), clauses)
  {
    var f' := Storing(f, cr, c);
    forall m: Model | SatListed(m, f', clauses) && RootHolds(m, t)
      ensures SatAll(m, f.clauses)
    {
      forall i | 0 <= i < |clauses| && clauses[i] in f.store
        ensures HoldsSome(m, f.store[clauses[i]].lits)
      {
        assert StoredAs(f, clauses[i], false, false);
        assert clauses[i] != cr && f'.store[clauses[i]] == f.store[clauses[i]];
      }
      assert SatListed(m, f, clauses);
    }
  }

  /** A deleted clause leaves its list; the other lists never held it. */
  lemma DropListed(f: Problem, before: seq<nat>, cr: nat, after: seq<nat>, learnt: bool, imported: bool)
    requires ListedAs(f, before + [cr] + after, learnt, imported)
    ensures cr in f.store && ListedAs(Forgetting(f, cr), before + after, learnt, imported)
    ensures StoredAs(f, cr, learnt, imported)
  {
    var all := before + [cr] + after;
    assert all[|before|] == cr;
    assert StoredAs(f, all[|before|], learnt, imported);
    forall i | 0 <= i < |before + after|
      ensures StoredAs(Forgetting(f, cr), (before + after)[i], learnt, imported)
    {
      var k := if i < |before| then i else i + 1;
      assert (before + after)[i] == all[k] && StoredAs(f, all[k], learnt, imported);
      assert k < |before| ==> all[k] != all[|before|];
      assert k > |before| ==> all[k] != all[|before|];
    }
    forall i, j | 0 <= i < j < |before + after|
      ensures (before + after)[i] != (before + after)[j]
    {
      assert (before + after)[i] == all[if i < |before| then i else i + 1];
      assert (before + after)[j] == all[if j < |before| then j else j + 1];
    }
  }

  /** A clause satisfied at level 0 may leave the list. */
  lemma CompleteDrop(t: Trail, f: Problem, before: seq<nat>, cr: nat, after: seq<nat>, l: Lit)
    requires Complete(t, f, before + [cr] + after) && cr in f.store && l in f.store[cr].lits
    requires t.IsTrue(l) && l.v < |t.level| && t.level[l.v] == 0
    ensures Complete(t, f, before + after)
  {
    forall m: Model | SatListed(m, f, before + after) && RootHolds(m, t)
      ensures SatAll(m, f.clauses)
    {
      TrueMeansAgree(m, t, l);
      assert Agrees(m, t, l.v);
      forall i | 0 <= i < |before + [cr] + after| && (before + [cr] + after)[i] in f.store
        ensures HoldsSome(m, f.store[(before + [cr] + after)[i]].lits)
      {
        if i < |before| {
          assert (before + after)[i] == before[i];
        } else if i > |before| {
          assert (before + after)[i - 1] == after[i - |before| - 1];
        }
      }
      assert SatListed(m, f, before + [cr] + after);
    }
  }

  /** Deleting a clause that is not listed changes nothing. */
  lemma CompleteDelete(t: Trail, f: Problem, clauses: seq<nat>, cr: nat)
    requires Complete(t, f, clauses) && cr in f.store
    ensures Complete(t, Forgetting(f, cr), clauses)
  {
    forall m: Model | SatListed(m, Forgetting(f, cr), clauses) && RootHolds(m, t)
      ensures SatAll(m, f.clauses)
    {
      assert SatListed(m, f, clauses);
    }
  }

  // ---------- sweeping a list ----------

  /** Nothing but clauses of one list was removed between f0 and f. */
  ghost predicate KeepsOthers(f0: Problem, f: Problem, learnt: bool, imported: bool) {
    && f.clauses == f0.clauses
    && forall cr, l, i :: StoredAs(f0, cr, l, i) && (l != learnt || i != imported) ==> StoredAs(f, cr, l, i)
  }

  lemma KeepsListed(f0: Problem, f: Problem, learnt: bool, imported: bool, crs: seq<nat>, l: bool, i: bool)
    requires KeepsOthers(f0, f, learnt, imported) && ListedAs(f0, crs, l, i) && (l != learnt || i != imported)
    ensures ListedAs(f, crs, l, i)
  {
    forall k | 0 <= k < |crs|
      ensures StoredAs(f, crs[k], l, i)
    {
      assert StoredAs(f0, crs[k], l, i);
    }
  }

  lemma StoredLive(t: Trail, db: Db, d: Dirt, f: Problem, q: nat, cr: nat, learnt: bool, imported: bool)
    requires Inv(t, db, d, f, q) && StoredAs(f, cr, learnt, imported)
    ensures Live(db.ca, cr) && ClauseOk(db.ca[cr], |t.assigns|) && db.ca[cr].imported == imported
    ensures cr in f.store && forall l :: l in db.ca[cr].lits <==> l in f.store[cr].lits
  {
    hide ListsOk, Attached, TrailOk, PropOk, Lazy;
    assert ContentOf(db.ca[cr]) == f.store[cr];
  }

  /** The compaction loop over a list: the first j entries of r are kept, those from i on are
      still to be looked at. */
  ghost predicate Sweeping(f0: Problem, f: Problem, cs: seq<nat>, r: seq<nat>, i: nat, j: nat, learnt: bool, imported: bool) {
    && j <= i <= |cs| == |r| && r[i..] == cs[i..]
    && ListedAs(f, r[..j] + cs[i..], learnt, imported) && KeepsOthers(f0, f, learnt, imported)
  }

  lemma SweepStart(f: Problem, cs: seq<nat>, learnt: bool, imported: bool)
    requires ListedAs(f, cs, learnt, imported)
    ensures Sweeping(f, f, cs, cs, 0, 0, learnt, imported) && cs[..0] + cs[0..] == cs
  {
    assert cs[..0] + cs[0..] == cs;
  }

  lemma SweepDrop(f0: Problem, f: Problem, cs: seq<nat>, r: seq<nat>, i: nat, j: nat, learnt: bool, imported: bool)
    requires Sweeping(f0, f, cs, r, i, j, learnt, imported) && i < |cs|
    ensures StoredAs(f, cs[i], learnt, imported) && r[i] == cs[i]
    ensures r[..j] + cs[i..] == r[..j] + [cs[i]] + cs[i + 1..]
    ensures Sweeping(f0, Forgetting(f, cs[i]), cs, r, i + 1, j, learnt, imported)
  {
    assert r[i] == r[i..][0] == cs[i..][0];
    assert r[i + 1..] == r[i..][1..] == cs[i + 1..];
    assert r[..j] + cs[i..] == r[..j] + [cs[i]] + cs[i + 1..];
    DropListed(f, r[..j], cs[i], cs[i + 1..], learnt, imported);
  }

  lemma SweepKeep(f0: Problem, f: Problem, cs: seq<nat>, r: seq<nat>, i: nat, j: nat, learnt: bool, imported: bool)
    requires Sweeping(f0, f, cs, r, i, j, learnt, imported) && i < |cs|
    ensures StoredAs(f, cs[i], learnt, imported) && r[i] == cs[i]
    ensures r[j := r[i]][..j + 1] == r[..j] + [cs[i]]
    ensures r[j := r[i]][..j + 1] + cs[i + 1..] == r[..j] + cs[i..]
    ensures Sweeping(f0, f, cs, r[j := r[i]], i + 1, j + 1, learnt, imported)
  {
    assert r[i] == r[i..][0] == cs[i..][0];
    assert r[i + 1..] == r[i..][1..] == cs[i + 1..];
    assert r[j := r[i]][..j + 1] == r[..j] + [cs[i]];
    assert r[j := r[i]][..j + 1] + cs[i + 1..] == r[..j] + cs[i..];
    assert (r[..j] + cs[i..])[j] == cs[i];
  }

  ghost predicate HasTrue(t: Trail, c: seq<Lit>) {
    exists i :: 0 <= i < |c| && t.IsTrue(c[i])
  }

  /** The clauses without a true literal, in order. */
  ghost function Unsatisfied(t: Trail, ca: Arena, cs: seq<nat>): seq<nat> {
    if cs == [] then []
    else if cs[|cs| - 1] in ca && HasTrue(t, ca[cs[|cs| - 1]].lits) then Unsatisfied(t, ca, cs[..|cs| - 1])
    else Unsatisfied(t, ca, cs[..|cs| - 1]) + [cs[|cs| - 1]]
  }

  /** ca' only differs from ca in deletion marks. */
  ghost predicate SameClauses(ca: Arena, ca': Arena) {
    ca'.Keys == ca.Keys && forall cr :: cr in ca ==> ca'[cr].lits == ca[cr].lits
  }

  /** The two lists name clauses with the same literals, in the same order. */
  ghost predicate SameNamed(ca: Arena, cs: seq<nat>, ca': Arena, cs': seq<nat>) {
    |cs'| == |cs| && forall i :: 0 <= i < |cs| && cs[i] in ca ==> cs'[i] in ca' && ca'[cs'[i]].lits == ca[cs[i]].lits
  }

  lemma NamedItself(ca: Arena, cs: seq<nat>)
    ensures SameNamed(ca, cs, ca, cs)
  {
  }

  lemma SameNamedFrom(ca0: Arena, ca: Arena, cs: seq<nat>, ca': Arena, cs': seq<nat>)
    requires SameClauses(ca0, ca) && SameNamed(ca, cs, ca', cs')
    ensures SameNamed(ca0, cs, ca', cs')
  {
  }

  /** No clause of the list has a true literal. */
  ghost predicate NoneTrue(t: Trail, ca: Arena, cs: seq<nat>) {
    forall i :: 0 <= i < |cs| ==> cs[i] in ca && !HasTrue(t, ca[cs[i]].lits)
  }

  lemma {:induction false} UnsatisfiedSame(t: Trail, u: Trail, ca: Arena, ca': Arena, cs: seq<nat>)
    requires u.assigns == t.assigns && SameClauses(ca, ca')
    ensures Unsatisfied(u, ca', cs) == Unsatisfied(t, ca, cs)
  {
    if cs != [] {
      UnsatisfiedSame(t, u, ca, ca', cs[..|cs| - 1]);
    }
  }

  lemma {:induction false} UnsatisfiedTrue(t: Trail, ca: Arena, cs: seq<nat>)
    requires forall i :: 0 <= i < |cs| ==> cs[i] in ca
    ensures NoneTrue(t, ca, Unsatisfied(t, ca, cs))
  {
    if cs != [] {
      UnsatisfiedTrue(t, ca, cs[..|cs| - 1]);
    }
  }

  lemma NoneTrueNamed(t: Trail, u: Trail, ca: Arena, cs: seq<nat>, ca': Arena, cs': seq<nat>)
    requires NoneTrue(t, ca, cs) && SameNamed(ca, cs, ca', cs') && u.assigns == t.assigns
    ensures NoneTrue(u, ca', cs')
  {
    forall i | 0 <= i < |cs'|
      ensures cs'[i] in ca' && !HasTrue(u, ca'[cs'[i]].lits)
    {
      assert cs[i] in ca;
    }
  }

  /** Removing a clause satisfied at level 0 from the list that defines the problem, or a clause
      of another list. */
  lemma CompleteRemove(t: Trail, f: Problem, main: bool, before: seq<nat>, cr: nat, after: seq<nat>, others: seq<nat>, l: Lit)
    requires cr in f.store && Complete(t, f, if main then before + [cr] + after else others)
    requires main ==> l in f.store[cr].lits && t.IsTrue(l) && l.v < |t.level| && t.level[l.v] == 0
    ensures Complete(t, Forgetting(f, cr), if main then before + after else others)
  {
    if main {
      CompleteDrop(t, f, before, cr, after, l);
      CompleteDelete(t, f, before + after, cr);
    } else {
      CompleteDelete(t, f, others, cr);
    }
  }

  lemma CompleteReasons(t: Trail, u: Trail, f: Problem, clauses: seq<nat>)
    requires Complete(t, f, clauses) && SameButReasons(t, u)
    ensures Complete(u, f, clauses)
  {
    CompleteMore(t, u, f, clauses);
  }

  /** rest keeps the order of cs and drops only long clauses that are not reasons. */
  ghost predicate Reduced(t: Trail, ca: Arena, cs: seq<nat>, rest: seq<nat>) {
    && (forall cr :: cr in rest ==> cr in cs)
    && (forall cr :: cr in cs && cr !in rest ==> cr in ca && |ca[cr].lits| > 2 && Unlocked(t, ca[cr], cr))
  }

  lemma ReducedDrop(t: Trail, ca: Arena, cs: seq<nat>, rest: seq<nat>, cr: nat)
    requires Reduced(t, ca, cs, rest) && cr in ca && |ca[cr].lits| > 2 && Unlocked(t, ca[cr], cr)
    ensures Reduced(t, ca, cs + [cr], rest)
  {
  }

  lemma ReducedKeep(t: Trail, ca: Arena, cs: seq<nat>, rest: seq<nat>, cr: nat)
    requires Reduced(t, ca, cs, rest)
    ensures Reduced(t, ca, cs + [cr], rest + [cr])
  {
  }

  // ---------- learning ----------

  /** The lists after a learnt clause was stored and its first literal enqueued. */
  lemma LearnRecorded(t: Trail, n: nat, f: Problem, clauses: seq<nat>, learnts: seq<nat>, imports: seq<nat>,
                      learnt: seq<Lit>, bt: nat, cr: nat)
    requires t.Wf(n) && Learnt(t, learnt, bt) && Recorded(t, f, clauses, learnts, imports) && cr !in f.store
    ensures t.Cancel(bt).Wf(n) && t.Cancel(bt).IsUndef(learnt[0])
    ensures Recorded(t.Cancel(bt).Push(learnt[0], Some(cr)), Storing(f, cr, LearntRec(learnt)), clauses, learnts + [cr], imports)
    ensures Recorded(t.Cancel(bt).Push(learnt[0], None), f, clauses, learnts, imports)
  {
    hide ListedAs, Complete, Learnt;
    LearntUnit(t, n, learnt, bt);
    BelowTop(t, learnt, bt);
    CompleteCancel(t, n, f, clauses, bt);
    CompletePush(t.Cancel(bt), n, f, clauses, learnt[0], Some(cr));
    CompletePush(t.Cancel(bt), n, f, clauses, learnt[0], None);
    CompleteStore(t.Cancel(bt).Push(learnt[0], Some(cr)), f, clauses, cr, LearntRec(learnt));
    StoreListed(f, clauses, false, false, cr, LearntRec(learnt));
    StoreListed(f, learnts, true, false, cr, LearntRec(learnt));
    StoreListed(f, imports, true, true, cr, LearntRec(learnt));
  }

  lemma BelowTop(t: Trail, learnt: seq<Lit>, bt: nat)
    requires Learnt(t, learnt, bt)
    ensures bt < |t.lim| && |learnt| >= 1 && (|learnt| == 1 ==> bt == 0)
  {
  }

  lemma LearnAssumed(t: Trail, n: nat, assumptions: seq<Lit>, learnt: seq<Lit>, bt: nat, from: Option<nat>)
    requires t.Wf(n) && Learnt(t, learnt, bt) && Assumed(t, assumptions) && (from.Some? || |learnt| == 1)
    ensures t.Cancel(bt).Wf(n) && t.Cancel(bt).IsUndef(learnt[0])
    ensures Assumed(t.Cancel(bt).Push(learnt[0], from), assumptions)
  {
    hide Assumed, Learnt;
    LearntUnit(t, n, learnt, bt);
    BelowTop(t, learnt, bt);
    AssumedCancel(t, n, assumptions, bt);
    AssumedPush(t.Cancel(bt), n, assumptions, learnt[0], from);
  }

  lemma RecordedStore(t: Trail, f: Problem, clauses: seq<nat>, learnts: seq<nat>, imports: seq<nat>, cr: nat, c: ClauseRec)
    requires Recorded(t, f, clauses, learnts, imports) && cr !in f.store && !c.deleted && c.learnt && c.imported
    ensures Recorded(t, Storing(f, cr, c), clauses, learnts, imports + [cr])
  {
    hide ListedAs, Complete;
    CompleteStore(t, f, clauses, cr, c);
    StoreListed(f, clauses, false, false, cr, c);
    StoreListed(f, learnts, true, false, cr, c);
    StoreListed(f, imports, true, true, cr, c);
  }

  // ---------- models ----------

  /** The total assignment that makes exactly the variables with value true true. */
  ghost function ModelOf(assigns: seq<LBool>): Model {
    iset v: nat | v < |assigns| && assigns[v] == LTrue
  }

  lemma ModelAgrees(t: Trail, v: nat)
    requires t.Assigned(v)
    ensures Agrees(ModelOf(t.assigns), t, v)
  {
  }

  lemma StableAssigned(t: Trail, c: seq<Lit>)
    requires Stable(t, c) && forall i :: 0 <= i < |c| ==> t.Assigned(c[i].v)
    ensures HasTrue(t, c)
  {
    forall i | 0 <= i < |c|
      ensures !t.IsUndef(c[i])
    {
      assert t.Assigned(c[i].v);
    }
  }

  /** When propagation is complete and everything is assigned, the trail is a model of the
      problem: of the stored clauses, and so of all clauses ever given. */
  lemma FoundModel(t: Trail, db: Db, d: Dirt, f: Problem, clauses: seq<nat>)
    requires Inv(t, db, d, f, |t.lits|) && ListedAs(f, clauses, false, false) && Complete(t, f, clauses)
    requires forall v: nat :: v < |t.assigns| ==> t.Assigned(v)
    ensures SatAll(ModelOf(t.assigns), f.clauses)
  {
    var m := ModelOf(t.assigns);
    hide Inv;
    forall i | 0 <= i < |clauses| && clauses[i] in f.store
      ensures HoldsSome(m, f.store[clauses[i]].lits)
    {
      var cr := clauses[i];
      assert StoredAs(f, cr, false, false);
      StoredLive(t, db, d, f, |t.lits|, cr, false, false);
      QueueEmpty(t, db, d, f);
      StableAssigned(t, db.ca[cr].lits);
      var k :| 0 <= k < |db.ca[cr].lits| && t.IsTrue(db.ca[cr].lits[k]);
      TrueMeansAgree(m, t, db.ca[cr].lits[k]);
      ModelAgrees(t, db.ca[cr].lits[k].v);
      assert db.ca[cr].lits[k] in f.store[cr].lits;
    }
    assert SatListed(m, f, clauses);
    assert RootHolds(m, t);
  }

  lemma RecordedCancel(t: Trail, n: nat, f: Problem, clauses: seq<nat>, learnts: seq<nat>, imports: seq<nat>, k: nat)
    requires t.Wf(n) && k < |t.lim| && Recorded(t, f, clauses, learnts, imports)
    ensures Recorded(t.Cancel(k), f, clauses, learnts, imports)
  {
    hide ListedAs, Complete;
    CompleteCancel(t, n, f, clauses, k);
  }

  /** Opening a level and deciding p. */
  lemma RecordedDecide(t: Trail, n: nat, f: Problem, clauses: seq<nat>, learnts: seq<nat>, imports: seq<nat>, p: Lit)
    requires t.Wf(n) && p.v < n && t.IsUndef(p) && Recorded(t, f, clauses, learnts, imports)
    ensures Recorded(t.NewLevel().Push(p, None), f, clauses, learnts, imports)
  {
    hide ListedAs, Complete;
    CompleteNewLevel(t, n, f, clauses);
    NewLevelWf(t, n);
    CompletePush(t.NewLevel(), n, f, clauses, p, None);
  }
}
