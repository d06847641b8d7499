/** The one-watched clauses: imported clauses that are only visited when their watch
    becomes false, and promoted once they are found falsified. */
module Purgatory {
  import opened Cnf
  import opened TrailState
  import opened ClauseDb
  import opened Cuts
  import opened Invariants
  import opened Propagation
  import opened Visits
  import opened Attach

  /** The lists of the first q trail literals are settled, and those of p but for its one-watched
      clauses. */
  ghost predicate AllButOnce(t: Trail, db: Db, q: nat) {
    Propagated(t, db.ca, db.long, q + 1) && Propagated(t, db.ca, db.bin, q + 1) && Propagated(t, db.ca, db.unary, q)
  }

  /** The loop over the one-watched clauses of p has reached index i and kept j watchers, which are
      settled; the other lists of p are settled as well. */
  ghost predicate UnaryAt(t: Trail, db: Db, f: Problem, p: Lit, q: nat, i: nat, j: nat) {
    && p in db.unary && j <= i <= |db.unary[p]|
    && BaseOk(t, db.(unary := Logical(db.unary, p, i, j)), |t.assigns|, f)
    && AllButOnce(t, db, q) && Current(t, p, q) && SettledList(t, db.ca, db.unary[p][..j], p)
  }

  ghost predicate UnaryClause(ca: Arena, n: nat, p: Lit, w: Watcher) {
    && Live(ca, w.cref) && ClauseOk(ca[w.cref], n) && ca[w.cref].oneWatched
    && ca[w.cref].lits[0] == p.Neg() && w.blocker in ca[w.cref].lits && w.blocker.v < n
  }

  lemma UnaryWatcher(ca: Arena, lists: Lists, n: nat, p: Lit, k: nat)
    requires ListsOk(ca, lists, n, Unary) && ArenaOk(ca, n) && Clean(ca, lists, [])
    requires p in lists && k < |lists[p]|
    ensures UnaryClause(ca, n, p, lists[p][k])
  {
    var w := lists[p][k];
    assert ListOk(ca, lists[p], p, Unary);
    assert WatcherOk(ca, w, p, Unary);
    assert RefIn(lists, p, w.cref);
    assert Live(ca, w.cref);
    assert ClauseOk(ca[w.cref], n);
  }

  lemma UnaryClauseAt(t: Trail, db: Db, f: Problem, p: Lit, q: nat, i: nat, j: nat)
    requires UnaryAt(t, db, f, p, q, i, j)
    ensures p in db.unary && j <= i <= |db.unary[p]| && t.Wf(|t.assigns|) && Current(t, p, q)
    ensures i < |db.unary[p]| ==> UnaryClause(db.ca, |t.assigns|, p, db.unary[p][i])
  {
    hide ListsOk, Attached, ArenaOk, ArenaSound, Clean, RootSound, ReasonsOk, PropOk;
    if i < |db.unary[p]| {
      var lists := Logical(db.unary, p, i, j);
      assert lists[p][j] == db.unary[p][i];
      UnaryWatcher(db.ca, lists, |t.assigns|, p, j);
    }
  }

  lemma KeepUnary(t: Trail, db: Db, f: Problem, p: Lit, q: nat, i: nat, j: nat)
    requires UnaryAt(t, db, f, p, q, i, j) && p in db.unary && j <= i < |db.unary[p]| && t.IsTrue(db.unary[p][i].blocker)
    ensures UnaryAt(t, db.(unary := Written(db.unary, p, j, db.unary[p][i])), f, p, q, i + 1, j + 1)
  {
    hide BaseOk, Propagated;
    UnaryClauseAt(t, db, f, p, q, i, j);
    TopIsHighest(t, |t.assigns|, db.unary[p][i].blocker, p);
    WrittenPropagated(t, db.ca, db.unary, p, q, j, db.unary[p][i]);
    CompactCopy(db.unary, p, i, j);
    assert Written(db.unary, p, j, db.unary[p][i])[p][..j + 1] == db.unary[p][..j] + [db.unary[p][i]];
  }

  /** The list of the literal that is being propagated may be changed. */
  lemma WrittenPropagated(t: Trail, ca: Arena, lists: Lists, p: Lit, q: nat, j: nat, w: Watcher)
    requires Propagated(t, ca, lists, q) && Current(t, p, q) && p in lists && j < |lists[p]|
    ensures Propagated(t, ca, Written(lists, p, j, w), q)
  {
    forall r: Lit | r in lists && Processed(t, r, q)
      ensures SettledList(t, ca, Written(lists, p, j, w)[r], r)
    {
      assert r != p;
    }
  }

  /** Taking the clause out of its list makes room for changing it. */
  lemma TakeOut(db: Db, n: nat, f: Problem, p: Lit, done: seq<Watcher>, w: Watcher, rest: seq<Watcher>, c: ClauseRec)
    requires DbOk(db, n, f) && AllClean(db) && p in db.unary && db.unary[p] == done + [w] + rest
    requires UnaryClause(db.ca, n, p, w) && ClauseOk(c, n) && Entails(f.clauses, c.lits) && !c.deleted
    requires ContentOf(c) == ContentOf(db.ca[w.cref])
    ensures var db' := db.(ca := db.ca[w.cref := c], unary := db.unary[p := done + rest]);
            DbOkBut(db', n, f, w.cref) && AllClean(db')
  {
    var cr := w.cref;
    var unary' := db.unary[p := done + rest];
    DropWatcher(db.ca, db.unary, n, Unary, p, done, w, rest);
    NotElsewhere(db.ca, db.long, n, Long, cr);
    NotElsewhere(db.ca, db.bin, n, Binary, cr);
    assert Unlisted(unary', cr) by {
      OnlyThere(db.ca, db.unary, n, cr);
    }
    TakeOutRest(db, n, f, cr, c, unary');
  }

  lemma TakeOutRest(db: Db, n: nat, f: Problem, cr: nat, c: ClauseRec, unary': Lists)
    requires DbOk(db, n, f) && AllClean(db) && Live(db.ca, cr)
    requires ClauseOk(c, n) && Entails(f.clauses, c.lits) && !c.deleted && ContentOf(c) == ContentOf(db.ca[cr])
    requires Unlisted(db.long, cr) && Unlisted(db.bin, cr) && Unlisted(unary', cr)
    requires ListsOk(db.ca, unary', n, Unary)
    requires forall r: Lit, x :: RefIn(db.unary, r, x) && x != cr ==> RefIn(unary', r, x)
    requires forall r: Lit, x :: RefIn(unary', r, x) ==> RefIn(db.unary, r, x)
    ensures var db' := db.(ca := db.ca[cr := c], unary := unary');
            DbOkBut(db', n, f, cr) && AllClean(db')
  {
    hide ListsOk, AttachedAt;
    UnlistedOk(db.ca, db.long, n, Long, cr, c);
    UnlistedOk(db.ca, db.bin, n, Binary, cr, c);
    UnlistedOk(db.ca, unary', n, Unary, cr, c);
    OthersAttached(db.ca, db.long, Long, cr, c);
    OthersAttached(db.ca, db.bin, Binary, cr, c);
    OthersStayAttached(db.ca, db.unary, unary', cr);
    OthersAttached(db.ca, unary', Unary, cr, c);
  }

  lemma OthersStayAttached(ca: Arena, lists: Lists, lists': Lists, cr: nat)
    requires Attached(ca, lists, Unary)
    requires forall r: Lit, x :: RefIn(lists, r, x) && x != cr ==> RefIn(lists', r, x)
    ensures forall x :: Live(ca, x) && x != cr ==> AttachedAt(ca[x], x, lists', Unary)
  {
    forall x | Live(ca, x) && x != cr
      ensures AttachedAt(ca[x], x, lists', Unary)
    {
      assert AttachedAt(ca[x], x, lists, Unary);
    }
  }

  lemma NotElsewhere(ca: Arena, lists: Lists, n: nat, kind: Kind, cr: nat)
    requires ListsOk(ca, lists, n, kind) && Live(ca, cr) && KindOf(ca[cr]) != kind
    ensures Unlisted(lists, cr)
  {
    forall r: Lit
      ensures !RefIn(lists, r, cr)
    {
      if RefIn(lists, r, cr) {
        RefsKnown(ca, lists, n, kind, r, cr);
        assert false;
      }
    }
  }

  lemma OnlyThere(ca: Arena, lists: Lists, n: nat, cr: nat)
    requires ListsOk(ca, lists, n, Unary) && Live(ca, cr) && |ca[cr].lits| >= 2
    ensures forall r: Lit :: RefIn(lists, r, cr) ==> r == ca[cr].lits[0].Neg()
  {
    forall r: Lit | RefIn(lists, r, cr)
      ensures r == ca[cr].lits[0].Neg()
    {
      RefsKnown(ca, lists, n, Unary, r, cr);
      assert r.Neg().Neg() == r;
    }
  }

  /** A clause that stays or becomes exempt, or says the same, leaves its watchers settled. */
  ghost predicate NoNewDuty(c: ClauseRec, d: ClauseRec) {
    Exempt(d) || (Exempt(c) == Exempt(d) && c.deleted == d.deleted)
  }

  /** One-watched clauses are no reasons. */
  lemma ChangeOneWatched(t: Trail, db: Db, cr: nat, c: ClauseRec, q: nat)
    requires t.Sized(|t.assigns|) && ReasonsOk(t, db.ca) && AllButOnce(t, db, q)
    requires cr in db.ca && db.ca[cr].oneWatched && NoNewDuty(db.ca[cr], c)
    ensures ReasonsOk(t, db.ca[cr := c]) && AllButOnce(t, db.(ca := db.ca[cr := c]), q)
  {
    var ca' := db.ca[cr := c];
    forall v: nat | v < |t.assigns|
      ensures ReasonOkAt(t, ca', v)
    {
      assert ReasonOkAt(t, db.ca, v);
    }
    ChangePropagated(t, db.ca, cr, c, db.long, q + 1);
    ChangePropagated(t, db.ca, cr, c, db.bin, q + 1);
    ChangePropagated(t, db.ca, cr, c, db.unary, q);
  }

  lemma ChangePropagated(t: Trail, ca: Arena, cr: nat, c: ClauseRec, lists: Lists, q: nat)
    requires Propagated(t, ca, lists, q) && cr in ca && NoNewDuty(ca[cr], c)
    ensures Propagated(t, ca[cr := c], lists, q)
  {
    var ca' := ca[cr := c];
    forall r: Lit | r in lists && Processed(t, r, q)
      ensures SettledList(t, ca', lists[r], r)
    {
      assert SettledList(t, ca, lists[r], r);
      forall i | 0 <= i < |lists[r]|
        ensures Settled(t, ca', lists[r][i], r)
      {
        assert Settled(t, ca, lists[r][i], r);
      }
    }
  }

  lemma ReorderedClause(c: ClauseRec, n: nat, f: Problem, i: nat, j: nat)
    requires ClauseOk(c, n) && Entails(f.clauses, c.lits) && i < |c.lits| && j < |c.lits|
    ensures ClauseOk(c.(lits := Swapped(c.lits, i, j)), n) && Entails(f.clauses, Swapped(c.lits, i, j))
    ensures |Swapped(c.lits, i, j)| == |c.lits|
    ensures ContentOf(c.(lits := Swapped(c.lits, i, j))) == ContentOf(c)
  {
    var ca := map[0 := c];
    SwappedReorders(c.lits, i, j);
    ReorderArena(ca, 0, Swapped(c.lits, i, j), n, f.(store := map[0 := ContentOf(c)]));
    assert ClauseOk(WithLits(ca, 0, Swapped(c.lits, i, j))[0], n);
  }

  /** The clause moves to the list of the literal at position k; the old watch is the blocker. */
  function MovedOnce(db: Db, w: Watcher, k: nat): Db
    requires w.cref in db.ca && 1 <= k < |db.ca[w.cref].lits| && db.ca[w.cref].lits[k].Neg() in db.unary
  {
    var c := db.ca[w.cref].lits;
    db.(ca := WithLits(db.ca, w.cref, Swapped(c, 0, k)),
        unary := db.unary[c[k].Neg() := db.unary[c[k].Neg()] + [Watcher(w.cref, c[0])]])
  }

  lemma MoveUnaryDb(db: Db, n: nat, f: Problem, p: Lit, done: seq<Watcher>, w: Watcher, rest: seq<Watcher>, k: nat)
    requires DbOk(db, n, f) && AllClean(db) && p in db.unary && db.unary[p] == done + [w] + rest
    requires UnaryClause(db.ca, n, p, w) && 1 <= k < |db.ca[w.cref].lits|
    ensures db.ca[w.cref].lits[k].Neg() in db.unary && db.ca[w.cref].lits[k].Neg() != p
    ensures var db' := MovedOnce(db.(unary := db.unary[p := done + rest]), w, k); DbOk(db', n, f) && AllClean(db')
  {
    hide ListsOk, Attached, AttachedBut, Unlisted, Clean, ArenaSound;
    var cr := w.cref;
    var c := db.ca[cr].lits;
    var rec := db.ca[cr].(lits := Swapped(c, 0, k));
    assert c[k].v != c[0].v && c[k].v < n;
    EntailedClause(db.ca, f, cr);
    ReorderedClause(db.ca[cr], n, f, 0, k);
    TakeOut(db, n, f, p, done, w, rest, rec);
    var db1 := db.(ca := db.ca[cr := rec], unary := db.unary[p := done + rest]);
    assert c[0] in rec.lits by { assert rec.lits[k] == c[0]; }
    WatchedOnceOk(db1.ca, db1.unary, n, cr, c[0]);
    AttachedIfOtherKind(db1.ca, db1.long, Long, cr);
    AttachedIfOtherKind(db1.ca, db1.bin, Binary, cr);
    UnaryDomain(db.ca, db.unary, n, c[k].Neg());
    CleanIfRefs(db1.ca, db1.unary, MovedOnce(db.(unary := db.unary[p := done + rest]), w, k).unary, cr);
  }

  lemma CleanIfRefs(ca: Arena, lists: Lists, lists': Lists, cr: nat)
    requires Clean(ca, lists, []) && Live(ca, cr)
    requires forall s: Lit, x :: RefIn(lists', s, x) ==> RefIn(lists, s, x) || x == cr
    ensures Clean(ca, lists', [])
  {
  }

  lemma EntailedClause(ca: Arena, f: Problem, cr: nat)
    requires ArenaSound(ca, f) && cr in ca
    ensures Entails(f.clauses, ca[cr].lits)
  {
  }

  lemma UnaryDomain(ca: Arena, lists: Lists, n: nat, r: Lit)
    requires ListsOk(ca, lists, n, Unary) && r.v < n
    ensures r in lists
  {
  }

  lemma MoveUnary(t: Trail, db: Db, f: Problem, p: Lit, q: nat, i: nat, j: nat, k: nat)
    requires UnaryAt(t, db, f, p, q, i, j) && p in db.unary && j <= i < |db.unary[p]|
    requires UnaryClause(db.ca, |t.assigns|, p, db.unary[p][i]) && 1 <= k < |db.ca[db.unary[p][i].cref].lits|
    requires !t.IsFalse(db.ca[db.unary[p][i].cref].lits[k])
    ensures db.ca[db.unary[p][i].cref].lits[k].Neg() in db.unary
    ensures UnaryAt(t, MovedOnce(db, db.unary[p][i], k), f, p, q, i + 1, j)
    ensures p in MovedOnce(db, db.unary[p][i], k).unary && MovedOnce(db, db.unary[p][i], k).unary[p] == db.unary[p]
  {
    hide DbOk, AllClean, AllButOnce, ReasonsOk, RootSound, SettledList;
    var w := db.unary[p][i];
    var c := db.ca[w.cref].lits;
    var n := |t.assigns|;
    var done, rest := db.unary[p][..j], db.unary[p][i + 1..];
    Compact(db.unary, p, i, j, w);
    var dbL := db.(unary := Logical(db.unary, p, i, j));
    assert dbL.unary[p] == done + [w] + rest;
    MoveUnaryDb(dbL, n, f, p, done, w, rest, k);
    CompactMove(db.unary, p, i, j, c[k].Neg(), Watcher(w.cref, c[0]));
    assert ClauseOk(db.ca[w.cref], n);
    ChangeOneWatched(t, db, w.cref, db.ca[w.cref].(lits := Swapped(c, 0, k)), q);
    SettledReorder(t, db.ca, w.cref, Swapped(c, 0, k), done, p);
    AppendOnce(t, db.(ca := WithLits(db.ca, w.cref, Swapped(c, 0, k))), p, c[k].Neg(), Watcher(w.cref, c[0]), q);
  }

  /** A watcher goes to the list of a literal that is not true. */
  lemma AppendOnce(t: Trail, db: Db, p: Lit, r: Lit, w: Watcher, q: nat)
    requires AllButOnce(t, db, q) && r in db.unary && !t.IsTrue(r)
    ensures AllButOnce(t, db.(unary := db.unary[r := db.unary[r] + [w]]), q)
  {
    AppendKeepsPropagated(t, db.ca, db.unary, q, r, w);
  }

  // ---------- what the loop has done ----------

  /** Some clause of the list is false. */
  ghost predicate SomeFalse(t: Trail, ca: Arena, ws: seq<Watcher>) {
    exists i :: 0 <= i < |ws| && FalseAt(t, ca, ws[i])
  }

  ghost predicate FalseAt(t: Trail, ca: Arena, w: Watcher) {
    w.cref in ca && AllFalse(t, ca[w.cref].lits)
  }

  /** The watch of the clause is not false, or another literal is true. */
  ghost predicate WellWatched(t: Trail, ca: Arena, cr: nat) {
    cr in ca && |ca[cr].lits| > 0 && (!t.IsFalse(ca[cr].lits[0]) || exists l :: l in ca[cr].lits && t.IsTrue(l))
  }

  /** The first i clauses of the list ws0 were not false, and are well watched now; the others are
      as they were. */
  ghost predicate Visited(t: Trail, ca0: Arena, ca: Arena, ws0: seq<Watcher>, ws: seq<Watcher>, i: nat) {
    && |ws| == |ws0|
    && (forall l :: 0 <= l < i && l < |ws0| ==> !FalseAt(t, ca0, ws0[l]) && WellWatched(t, ca, ws0[l].cref))
    && (forall l :: i <= l < |ws0| ==> ws[l] == ws0[l] && SameClause(ca0, ca, ws0[l].cref))
  }

  ghost predicate SameClause(ca0: Arena, ca: Arena, cr: nat) {
    cr in ca0 && cr in ca && ca[cr] == ca0[cr]
  }

  lemma NoneVisited(t: Trail, db: Db, f: Problem, p: Lit, q: nat)
    requires UnaryAt(t, db, f, p, q, 0, 0)
    ensures Visited(t, db.ca, db.ca, db.unary[p], db.unary[p], 0)
    ensures forall i, j :: 0 <= i < j < |db.unary[p]| ==> db.unary[p][i].cref != db.unary[p][j].cref
  {
    hide Attached, ArenaOk, ArenaSound, Clean, RootSound, ReasonsOk, Propagated, SettledList;
    var ws := db.unary[p];
    assert Logical(db.unary, p, 0, 0)[p] == ws;
    assert ListOk(db.ca, ws, p, Unary);
    forall l | 0 <= l < |ws|
      ensures SameClause(db.ca, db.ca, ws[l].cref)
    {
      assert WatcherOk(db.ca, ws[l], p, Unary);
    }
  }

  lemma OneMoreVisited(t: Trail, ca0: Arena, ca1: Arena, ca: Arena, ws0: seq<Watcher>, ws1: seq<Watcher>, ws: seq<Watcher>, i: nat)
    requires Visited(t, ca0, ca1, ws0, ws1, i) && i < |ws0| && |ws| == |ws0|
    requires forall j, k :: 0 <= j < k < |ws0| ==> ws0[j].cref != ws0[k].cref
    requires forall l :: i < l < |ws0| ==> ws[l] == ws1[l]
    requires forall x :: x in ca1 && x != ws1[i].cref ==> x in ca && ca[x] == ca1[x]
    requires !FalseAt(t, ca1, ws1[i]) && WellWatched(t, ca, ws1[i].cref)
    ensures Visited(t, ca0, ca, ws0, ws, i + 1)
  {
    hide FalseAt;
    assert SameClause(ca0, ca1, ws0[i].cref) && ws1[i] == ws0[i];
    assert FalseAt(t, ca0, ws0[i]) == FalseAt(t, ca1, ws1[i]) by {
      SameFalse(t, ca0, ca1, ws0[i]);
    }
  }

  lemma SameFalse(t: Trail, ca0: Arena, ca: Arena, w: Watcher)
    requires SameClause(ca0, ca, w.cref)
    ensures FalseAt(t, ca0, w) == FalseAt(t, ca, w)
  {
  }

  /** The next clause is false: so was one of the list. */
  lemma FalseFound(t: Trail, ca0: Arena, ca: Arena, ws0: seq<Watcher>, ws: seq<Watcher>, i: nat)
    requires Visited(t, ca0, ca, ws0, ws, i) && i < |ws0| && FalseAt(t, ca, ws[i])
    ensures SomeFalse(t, ca0, ws0)
  {
    assert SameClause(ca0, ca, ws0[i].cref);
    SameFalse(t, ca0, ca, ws0[i]);
  }

  lemma SameLength(t: Trail, ca0: Arena, ca: Arena, ws0: seq<Watcher>, ws: seq<Watcher>, i: nat)
    requires Visited(t, ca0, ca, ws0, ws, i)
    ensures |ws| == |ws0| && (i < |ws0| ==> ws[i] == ws0[i])
  {
  }

  lemma AllVisited(t: Trail, ca0: Arena, ca: Arena, ws0: seq<Watcher>, ws: seq<Watcher>)
    requires Visited(t, ca0, ca, ws0, ws, |ws0|)
    ensures !SomeFalse(t, ca0, ws0) && forall l :: 0 <= l < |ws0| ==> WellWatched(t, ca, ws0[l].cref)
  {
  }

  // ---------- conflicts ----------

  /** The one-watched clause is falsified; the rest of the list is still to be copied. */
  ghost predicate UnaryBetween(t: Trail, db: Db, f: Problem, i: nat, j: nat, p: Lit, q: nat) {
    && p in db.unary && j <= i <= |db.unary[p]|
    && BaseOk(t, db.(unary := Logical(db.unary, p, i, j)), |t.assigns|, f) && AllButOnce(t, db, q) && Current(t, p, q)
  }

  lemma UnaryConflict(t: Trail, ca: Arena, p: Lit, q: nat, w: Watcher, n: nat)
    requires UnaryClause(ca, n, p, w) && Current(t, p, q)
    requires forall k :: 1 <= k < |ca[w.cref].lits| ==> t.IsFalse(ca[w.cref].lits[k])
    ensures Conflicting(t, ca, w.cref)
  {
    assert t.IsFalse(p.Neg()) && OnTop(t, ca[w.cref].lits[0].v);
  }

  /** The kept watcher gets the false literal as its blocker. */
  lemma ConflictUnary(t: Trail, db: Db, f: Problem, p: Lit, q: nat, i: nat, j: nat)
    requires UnaryAt(t, db, f, p, q, i, j) && p in db.unary && j <= i < |db.unary[p]|
    requires UnaryClause(db.ca, |t.assigns|, p, db.unary[p][i])
    ensures var w' := Watcher(db.unary[p][i].cref, db.ca[db.unary[p][i].cref].lits[0]);
            UnaryBetween(t, db.(unary := Written(db.unary, p, j, w')), f, i + 1, j + 1, p, q)
  {
    hide Propagated, ReasonsOk, RootSound, ArenaSound, ArenaOk, ListOk, Attached, Clean, SettledList, Current;
    WrittenPropagated(t, db.ca, db.unary, p, q, j, Watcher(db.unary[p][i].cref, db.ca[db.unary[p][i].cref].lits[0]));
    var w := db.unary[p][i];
    var w' := Watcher(w.cref, db.ca[w.cref].lits[0]);
    var n := |t.assigns|;
    var done, rest := db.unary[p][..j], db.unary[p][i + 1..];
    Compact(db.unary, p, i, j, w');
    var lists := Logical(db.unary, p, i, j);
    assert lists[p] == done + [w] + rest;
    Reblocked(db.ca, lists, n, p, done, w, rest, w'.blocker);
  }

  lemma Reblocked(ca: Arena, lists: Lists, n: nat, p: Lit, done: seq<Watcher>, w: Watcher, rest: seq<Watcher>, b: Lit)
    requires ListsOk(ca, lists, n, Unary) && Attached(ca, lists, Unary) && Clean(ca, lists, [])
    requires p in lists && lists[p] == done + [w] + rest && UnaryClause(ca, n, p, w) && b in ca[w.cref].lits
    ensures var lists' := lists[p := done + [Watcher(w.cref, b)] + rest];
            ListsOk(ca, lists', n, Unary) && Attached(ca, lists', Unary) && Clean(ca, lists', [])
  {
    var lists' := lists[p := done + [Watcher(w.cref, b)] + rest];
    var ws, ws' := lists[p], lists'[p];
    assert forall i :: 0 <= i < |ws'| ==> ws'[i].cref == ws[i].cref;
    forall r: Lit | r in lists'
      ensures ListOk(ca, lists'[r], r, Unary)
    {
      assert ListOk(ca, lists[r], r, Unary);
      if r == p {
        forall i | 0 <= i < |ws'|
          ensures WatcherOk(ca, ws'[i], p, Unary)
        {
          assert WatcherOk(ca, ws[i], p, Unary);
        }
      }
    }
    forall r: Lit, cr
      ensures RefIn(lists, r, cr) <==> RefIn(lists', r, cr)
    {
      if RefIn(lists, r, cr) {
        var i :| 0 <= i < |lists[r]| && lists[r][i].cref == cr;
        assert lists'[r][i].cref == cr;
      }
      if RefIn(lists', r, cr) {
        var i :| 0 <= i < |lists'[r]| && lists'[r][i].cref == cr;
        assert lists[r][i].cref == cr;
      }
    }
    AppendKeepsAttached(ca, lists, lists', Unary);
  }

  lemma CopyUnary(t: Trail, db: Db, f: Problem, i: nat, j: nat, p: Lit, q: nat)
    requires UnaryBetween(t, db, f, i, j, p, q) && p in db.unary && j <= i < |db.unary[p]|
    ensures UnaryBetween(t, db.(unary := Written(db.unary, p, j, db.unary[p][i])), f, i + 1, j + 1, p, q)
  {
    WrittenPropagated(t, db.ca, db.unary, p, q, j, db.unary[p][i]);
    hide BaseOk, Propagated;
    CompactCopy(db.unary, p, i, j);
  }

  lemma ShrunkUnary(t: Trail, db: Db, f: Problem, j: nat, p: Lit, q: nat)
    requires p in db.unary && UnaryBetween(t, db, f, |db.unary[p]|, j, p, q)
    ensures j <= |db.unary[p]|
    ensures BaseOk(t, db.(unary := db.unary[p := db.unary[p][..j]]), |t.assigns|, f)
    ensures AllButOnce(t, db.(unary := db.unary[p := db.unary[p][..j]]), q)
  {
    assert db.unary[p][|db.unary[p]|..] == [];
    assert db.unary[p][..j] + [] == db.unary[p][..j];
    CutPropagated(t, db.ca, db.unary, p, q, db.unary[p][..j]);
    hide BaseOk, Propagated;
  }

  lemma CutPropagated(t: Trail, ca: Arena, lists: Lists, p: Lit, q: nat, ws: seq<Watcher>)
    requires Propagated(t, ca, lists, q) && Current(t, p, q) && p in lists
    ensures Propagated(t, ca, lists[p := ws], q)
  {
    forall r: Lit | r in lists && Processed(t, r, q)
      ensures SettledList(t, ca, lists[p := ws][r], r)
    {
      assert r != p;
    }
  }

  /** Promotion: the falsified clause leaves its one-watched list and is attached with the
      highest other literal as second watch. */
  function Promoted(db: Db, p: Lit, k: nat, index: nat): Db
    requires p in db.unary && k < |db.unary[p]| && db.unary[p][k].cref in db.ca
    requires 1 <= index < |db.ca[db.unary[p][k].cref].lits|
    requires var c := db.ca[db.unary[p][k].cref].lits;
             && c[0].Neg() in db.long && c[index].Neg() in db.long && c[0].Neg() in db.bin && c[index].Neg() in db.bin
  {
    var cr := db.unary[p][k].cref;
    var c := db.ca[cr];
    var rest := db.unary[p][..k] + db.unary[p][k + 1..];
    WithAttached(db.(ca := db.ca[cr := c.(lits := Swapped(c.lits, 1, index), oneWatched := false)],
                     unary := db.unary[p := rest]), cr)
  }

  lemma PromotedOk(t: Trail, db: Db, f: Problem, p: Lit, k: nat, index: nat, q: nat)
    requires BaseOk(t, db, |t.assigns|, f) && AllButOnce(t, db, q) && Current(t, p, q)
    requires p in db.unary && k < |db.unary[p]| && UnaryClause(db.ca, |t.assigns|, p, db.unary[p][k])
    requires 1 <= index < |db.ca[db.unary[p][k].cref].lits|
    ensures var c := db.ca[db.unary[p][k].cref].lits;
            && c[0].Neg() in db.long && c[index].Neg() in db.long && c[0].Neg() in db.bin && c[index].Neg() in db.bin
    ensures BaseOk(t, Promoted(db, p, k, index), |t.assigns|, f) && AllButOnce(t, Promoted(db, p, k, index), q)
  {
    hide DbOkBut, ListsOk, Attached, ArenaSound, RootSound, ReasonsOk, Propagated, Clean;
    var w := db.unary[p][k];
    var cr := w.cref;
    var c := db.ca[cr];
    var n := |t.assigns|;
    var done, rest := db.unary[p][..k], db.unary[p][k + 1..];
    assert db.unary[p] == done + [w] + rest;
    EntailedClause(db.ca, f, cr);
    ReorderedClause(c, n, f, 1, index);
    var c' := c.(lits := Swapped(c.lits, 1, index), oneWatched := false);
    TakeOut(db, n, f, p, done, w, rest, c');
    InDomain(db.ca, db.long, n, Long, c.lits);
    InDomain(db.ca, db.bin, n, Binary, c.lits);
    var db1 := db.(ca := db.ca[cr := c'], unary := db.unary[p := done + rest]);
    AttachOk(db1, n, f, cr);
    ChangeOneWatched(t, db, cr, c', q);
    CutPropagated(t, db1.ca, db.unary, p, q, done + rest);
    AttachPropagatedOnce(t, db1, cr, q);
  }

  lemma AttachPropagatedOnce(t: Trail, db: Db, cr: nat, q: nat)
    requires AllButOnce(t, db, q) && cr in db.ca && |db.ca[cr].lits| >= 2 && DistinctVars(db.ca[cr].lits)
    requires db.ca[cr].lits[0].Neg() in db.long && db.ca[cr].lits[1].Neg() in db.long
    requires db.ca[cr].lits[0].Neg() in db.bin && db.ca[cr].lits[1].Neg() in db.bin
    requires Exempt(db.ca[cr])
    ensures AllButOnce(t, WithAttached(db, cr), q)
  {
    AttachPropagated(t, db.(unary := map[]), cr, q + 1);
  }

  /** Once a list of p is settled, one more trail literal is propagated. */
  lemma NextPropagated(t: Trail, ca: Arena, n: nat, lists: Lists, p: Lit, q: nat)
    requires t.Wf(n) && Current(t, p, q) && Propagated(t, ca, lists, q)
    requires p in lists && SettledList(t, ca, lists[p], p)
    ensures Propagated(t, ca, lists, q + 1)
  {
    forall r: Lit | r in lists && Processed(t, r, q + 1)
      ensures SettledList(t, ca, lists[r], r)
    {
      if !Processed(t, r, q) {
        assert t.Assigned(r.v) && t.Assigned(p.v);
        assert t.lits[t.pos[r.v]].v == r.v && t.lits[t.pos[p.v]].v == p.v;
        assert r == p;
      }
    }
  }

  /** Once every one-watched clause of p was visited, one more trail literal is propagated. */
  lemma UnaryDone(t: Trail, db: Db, f: Problem, p: Lit, q: nat, j: nat)
    requires p in db.unary && UnaryAt(t, db, f, p, q, |db.unary[p]|, j)
    ensures j <= |db.unary[p]| && BaseOk(t, db.(unary := db.unary[p := db.unary[p][..j]]), |t.assigns|, f)
    ensures PropOk(t, db.(unary := db.unary[p := db.unary[p][..j]]), q + 1)
  {
    assert db.unary[p][|db.unary[p]|..] == [];
    assert db.unary[p][..j] + [] == db.unary[p][..j];
    CutPropagated(t, db.ca, db.unary, p, q, db.unary[p][..j]);
    hide DbOk, RootSound, ReasonsOk, AllClean, SettledList, Propagated;
    NextPropagated(t, db.ca, |t.assigns|, db.unary[p := db.unary[p][..j]], p, q);
  }

  lemma WeakenOnce(t: Trail, db: Db, q: nat)
    requires AllButOnce(t, db, q)
    ensures PropOk(t, db, q)
  {
    forall r: Lit | Processed(t, r, q)
      ensures Processed(t, r, q + 1)
    {
    }
  }

  lemma UnaryLoopEnd(t: Trail, db: Db, f: Problem, p: Lit, q: nat, j: nat)
    requires p in db.unary && UnaryAt(t, db, f, p, q, |db.unary[p]|, j)
    ensures UnaryBetween(t, db, f, |db.unary[p]|, j, p, q)
  {
    hide BaseOk, AllButOnce;
  }

  /** A live one-watched clause is in the list of its watch. */
  lemma UnaryListed(t: Trail, db: Db, n: nat, f: Problem, p: Lit, cr: nat)
    requires BaseOk(t, db, n, f) && Live(db.ca, cr) && db.ca[cr].oneWatched && |db.ca[cr].lits| >= 1
    requires db.ca[cr].lits[0] == p.Neg()
    ensures p in db.unary && HasRef(db.unary[p], cr)
  {
    hide ListsOk, ArenaSound, RootSound, ReasonsOk, Clean;
    assert ClauseOk(db.ca[cr], n);
    assert AttachedAt(db.ca[cr], cr, db.unary, Unary);
    assert p.Neg().Neg() == p;
  }

  lemma WatcherAtIndex(t: Trail, db: Db, n: nat, f: Problem, p: Lit, k: nat)
    requires BaseOk(t, db, n, f) && p in db.unary && k < |db.unary[p]|
    ensures UnaryClause(db.ca, n, p, db.unary[p][k])
  {
    hide Attached, ArenaSound, RootSound, ReasonsOk;
    UnaryWatcher(db.ca, db.unary, n, p, k);
  }

  lemma StillConflicting(t: Trail, ca: Arena, cr: nat, c: ClauseRec, i: nat, j: nat)
    requires Conflicting(t, ca, cr) && i < |ca[cr].lits| && j < |ca[cr].lits|
    requires c.lits == Swapped(ca[cr].lits, i, j) && !c.deleted
    ensures Conflicting(t, ca[cr := c], cr)
  {
    var k :| 0 <= k < |ca[cr].lits| && OnTop(t, ca[cr].lits[k].v);
    assert OnTop(t, c.lits[if k == i then j else if k == j then i else k].v);
  }
}
