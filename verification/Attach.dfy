/** Attaching clauses to the watcher lists: new clauses, learnt clauses, and one-watched
    clauses that are promoted. */
module Attach {
  import opened Cnf
  import opened TrailState
  import opened ClauseDb
  import opened Cuts
  import opened Invariants
  import opened Propagation
  import opened Visits

  /** attachClause: two watchers, each blocked by the other watched literal. */
  function WithAttached(db: Db, cr: nat): Db
    requires cr in db.ca && |db.ca[cr].lits| >= 2
    requires db.ca[cr].lits[0].Neg() in db.long && db.ca[cr].lits[1].Neg() in db.long
    requires db.ca[cr].lits[0].Neg() in db.bin && db.ca[cr].lits[1].Neg() in db.bin
  {
    var c := db.ca[cr].lits;
    if |c| == 2 then db.(bin := Watched(db.bin, cr, c)) else db.(long := Watched(db.long, cr, c))
  }

  function Watched(lists: Lists, cr: nat, c: seq<Lit>): Lists
    requires |c| >= 2 && c[0].Neg() in lists && c[1].Neg() in lists
  {
    var once := lists[c[0].Neg() := lists[c[0].Neg()] + [Watcher(cr, c[1])]];
    once[c[1].Neg() := once[c[1].Neg()] + [Watcher(cr, c[0])]]
  }

  /** attachClausePurgatory: one watcher for the first literal. */
  function WithPurgatory(db: Db, cr: nat): Db
    requires cr in db.ca && |db.ca[cr].lits| >= 2 && db.ca[cr].lits[0].Neg() in db.unary
  {
    var c := db.ca[cr].lits;
    db.(unary := db.unary[c[0].Neg() := db.unary[c[0].Neg()] + [Watcher(cr, c[1])]])
  }

  /** No list of the scheme names cr. */
  ghost predicate Unlisted(lists: Lists, cr: nat) {
    forall r: Lit :: !RefIn(lists, r, cr)
  }

  ghost predicate AttachedBut(ca: Arena, lists: Lists, kind: Kind, cr: nat) {
    forall x :: Live(ca, x) && x != cr ==> AttachedAt(ca[x], x, lists, kind)
  }

  /** Everything is in order except that cr is in no list yet. */
  ghost predicate DbOkBut(db: Db, n: nat, f: Problem, cr: nat) {
    && Live(db.ca, cr) && ArenaOk(db.ca, n) && ArenaSound(db.ca, f)
    && (forall x :: x in db.ca ==> x < db.next)
    && ListsOk(db.ca, db.long, n, Long) && AttachedBut(db.ca, db.long, Long, cr) && Unlisted(db.long, cr)
    && ListsOk(db.ca, db.bin, n, Binary) && AttachedBut(db.ca, db.bin, Binary, cr) && Unlisted(db.bin, cr)
    && ListsOk(db.ca, db.unary, n, Unary) && AttachedBut(db.ca, db.unary, Unary, cr) && Unlisted(db.unary, cr)
  }

  /** Lists that do not name cr do not care what the clause is. */
  lemma UnlistedOk(ca: Arena, lists: Lists, n: nat, kind: Kind, cr: nat, c: ClauseRec)
    requires ListsOk(ca, lists, n, kind) && Unlisted(lists, cr)
    ensures ListsOk(ca[cr := c], lists, n, kind)
  {
    forall r: Lit | r in lists
      ensures ListOk(ca[cr := c], lists[r], r, kind)
    {
      assert ListOk(ca, lists[r], r, kind) && !RefIn(lists, r, cr);
      forall i | 0 <= i < |lists[r]|
        ensures WatcherOk(ca[cr := c], lists[r][i], r, kind)
      {
        assert WatcherOk(ca, lists[r][i], r, kind);
        assert lists[r][i].cref != cr;
      }
    }
  }

  lemma OthersAttached(ca: Arena, lists: Lists, kind: Kind, cr: nat, c: ClauseRec)
    requires forall x :: Live(ca, x) && x != cr ==> AttachedAt(ca[x], x, lists, kind)
    ensures AttachedBut(ca[cr := c], lists, kind, cr)
  {
    var ca' := ca[cr := c];
    forall x | Live(ca', x) && x != cr
      ensures AttachedAt(ca'[x], x, lists, kind)
    {
      assert Live(ca, x);
    }
  }

  /** The problem with one more stored clause. */
  ghost function Storing(f: Problem, cr: nat, c: ClauseRec): Problem {
    f.(store := f.store[cr := ContentOf(c)])
  }

  /** alloc: the clause is stored at a fresh reference. */
  lemma AllocOk(db: Db, n: nat, f: Problem, c: ClauseRec, size: nat)
    requires DbOk(db, n, f) && ClauseOk(c, n) && Entails(f.clauses, c.lits) && !c.deleted && size > 0
    ensures db.next !in db.ca
    ensures DbOkBut(db.(ca := db.ca[db.next := c], next := db.next + size), n, Storing(f, db.next, c), db.next)
  {
    var cr := db.next;
    FreshClause(db.ca, db.long, n, Long, cr, c);
    FreshClause(db.ca, db.bin, n, Binary, cr, c);
    FreshClause(db.ca, db.unary, n, Unary, cr, c);
    OthersAttached(db.ca, db.long, Long, cr, c);
    OthersAttached(db.ca, db.bin, Binary, cr, c);
    OthersAttached(db.ca, db.unary, Unary, cr, c);
  }

  lemma WatchedOk(ca: Arena, lists: Lists, n: nat, kind: Kind, cr: nat)
    requires ListsOk(ca, lists, n, kind) && AttachedBut(ca, lists, kind, cr) && Unlisted(lists, cr)
    requires Live(ca, cr) && ClauseOk(ca[cr], n) && KindOf(ca[cr]) == kind && kind != Unary
    ensures ca[cr].lits[0].Neg() in lists && ca[cr].lits[1].Neg() in lists
    ensures ListsOk(ca, Watched(lists, cr, ca[cr].lits), n, kind)
    ensures Attached(ca, Watched(lists, cr, ca[cr].lits), kind)
    ensures forall r: Lit, x :: RefIn(Watched(lists, cr, ca[cr].lits), r, x) ==> RefIn(lists, r, x) || x == cr
  {
    var c := ca[cr].lits;
    var r0, r1 := c[0].Neg(), c[1].Neg();
    assert r0.Neg() == c[0] && r1.Neg() == c[1] && c[0].v != c[1].v;
    assert !RefIn(lists, r0, cr) && !RefIn(lists, r1, cr);
    AppendWatcher(ca, lists, n, kind, r0, Watcher(cr, c[1]));
    var once := lists[r0 := lists[r0] + [Watcher(cr, c[1])]];
    assert !RefIn(once, r1, cr);
    AppendWatcher(ca, once, n, kind, r1, Watcher(cr, c[0]));
    var twice := once[r1 := once[r1] + [Watcher(cr, c[0])]];
    assert RefIn(twice, r0, cr) && RefIn(twice, r1, cr);
    forall x | Live(ca, x)
      ensures AttachedAt(ca[x], x, twice, kind)
    {
      assert x != cr ==> AttachedAt(ca[x], x, lists, kind);
    }
  }

  lemma AttachedIfOtherKind(ca: Arena, lists: Lists, kind: Kind, cr: nat)
    requires AttachedBut(ca, lists, kind, cr) && Live(ca, cr) && KindOf(ca[cr]) != kind
    ensures Attached(ca, lists, kind)
  {
    forall x | Live(ca, x)
      ensures AttachedAt(ca[x], x, lists, kind)
    {
    }
  }

  lemma AttachOk(db: Db, n: nat, f: Problem, cr: nat)
    requires DbOkBut(db, n, f, cr) && !db.ca[cr].oneWatched
    ensures ClauseOk(db.ca[cr], n)
    ensures db.ca[cr].lits[0].Neg() in db.long && db.ca[cr].lits[1].Neg() in db.long
    ensures db.ca[cr].lits[0].Neg() in db.bin && db.ca[cr].lits[1].Neg() in db.bin
    ensures DbOk(WithAttached(db, cr), n, f)
    ensures AllClean(db) ==> AllClean(WithAttached(db, cr))
  {
    hide ArenaSound, ListsOk, Attached, AttachedBut, Unlisted;
    assert ClauseOk(db.ca[cr], n);
    InDomain(db.ca, db.long, n, Long, db.ca[cr].lits);
    InDomain(db.ca, db.bin, n, Binary, db.ca[cr].lits);
    if |db.ca[cr].lits| == 2 {
      WatchedOk(db.ca, db.bin, n, Binary, cr);
      AttachedIfOtherKind(db.ca, db.long, Long, cr);
    } else {
      WatchedOk(db.ca, db.long, n, Long, cr);
      AttachedIfOtherKind(db.ca, db.bin, Binary, cr);
    }
    AttachedIfOtherKind(db.ca, db.unary, Unary, cr);
  }

  lemma InDomain(ca: Arena, lists: Lists, n: nat, kind: Kind, c: seq<Lit>)
    requires ListsOk(ca, lists, n, kind) && forall i :: 0 <= i < |c| ==> c[i].v < n
    ensures forall i :: 0 <= i < |c| ==> c[i].Neg() in lists
  {
  }

  lemma WatchedOnceOk(ca: Arena, lists: Lists, n: nat, cr: nat, b: Lit)
    requires ListsOk(ca, lists, n, Unary) && AttachedBut(ca, lists, Unary, cr) && Unlisted(lists, cr)
    requires Live(ca, cr) && ClauseOk(ca[cr], n) && ca[cr].oneWatched && b in ca[cr].lits
    ensures ca[cr].lits[0].Neg() in lists
    ensures var r := ca[cr].lits[0].Neg(); var lists' := lists[r := lists[r] + [Watcher(cr, b)]];
            && ListsOk(ca, lists', n, Unary) && Attached(ca, lists', Unary)
            && forall s: Lit, x :: RefIn(lists', s, x) ==> RefIn(lists, s, x) || x == cr
  {
    var r := ca[cr].lits[0].Neg();
    assert r.Neg() == ca[cr].lits[0];
    assert !RefIn(lists, r, cr);
    AppendWatcher(ca, lists, n, Unary, r, Watcher(cr, b));
    var lists' := lists[r := lists[r] + [Watcher(cr, b)]];
    forall x | Live(ca, x)
      ensures AttachedAt(ca[x], x, lists', Unary)
    {
      assert x != cr ==> AttachedAt(ca[x], x, lists, Unary);
    }
  }

  lemma PurgatoryOk(db: Db, n: nat, f: Problem, cr: nat)
    requires DbOkBut(db, n, f, cr) && db.ca[cr].oneWatched
    ensures ClauseOk(db.ca[cr], n) && db.ca[cr].lits[0].Neg() in db.unary
    ensures DbOk(WithPurgatory(db, cr), n, f)
    ensures AllClean(db) ==> AllClean(WithPurgatory(db, cr))
  {
    hide ArenaSound, ListsOk, Attached, AttachedBut, Unlisted;
    assert ClauseOk(db.ca[cr], n);
    WatchedOnceOk(db.ca, db.unary, n, cr, db.ca[cr].lits[1]);
    AttachedIfOtherKind(db.ca, db.long, Long, cr);
    AttachedIfOtherKind(db.ca, db.bin, Binary, cr);
  }

  // ---------- imported clauses ----------

  /** The clause at cr as if it were not imported. */
  function AsOwn(db: Db, cr: nat): Db
    requires cr in db.ca
  {
    db.(ca := db.ca[cr := db.ca[cr].(imported := false)])
  }

  /** One of the two watched literals is true, or both are unassigned. */
  ghost predicate WatchesFine(t: Trail, c: seq<Lit>)
    requires |c| >= 2
  {
    t.IsTrue(c[0]) || t.IsTrue(c[1]) || (t.IsUndef(c[0]) && t.IsUndef(c[1]))
  }

  /** A clause that is attached at level 0 with everything propagated is settled like any other
      clause exactly if one of its first two literals is true or both are unassigned. */
  lemma ImportSettled(t: Trail, db: Db, cr: nat, n: nat)
    requires t.Wf(n) && t.lim == [] && cr in db.ca && ClauseOk(db.ca[cr], n) && !db.ca[cr].deleted
    requires !db.ca[cr].oneWatched && Unlisted(db.long, cr) && Unlisted(db.bin, cr) && Unlisted(db.unary, cr)
    requires PropOk(t, db, |t.lits|)
    requires db.ca[cr].lits[0].Neg() in db.long && db.ca[cr].lits[1].Neg() in db.long
    requires db.ca[cr].lits[0].Neg() in db.bin && db.ca[cr].lits[1].Neg() in db.bin
    ensures PropOk(t, WithAttached(AsOwn(db, cr), cr), |t.lits|) <==> WatchesFine(t, db.ca[cr].lits)
  {
    var c, own, q := db.ca[cr].lits, AsOwn(db, cr), |t.lits|;
    assert forall v: nat :: t.Assigned(v) ==> t.Levelled(v);
    UnlistedPropagated(t, db.ca, own.ca, db.long, cr, q);
    UnlistedPropagated(t, db.ca, own.ca, db.bin, cr, q);
    UnlistedPropagated(t, db.ca, own.ca, db.unary, cr, q);
    assert Processed(t, c[0].Neg(), q) <==> t.IsFalse(c[0]);
    assert Processed(t, c[1].Neg(), q) <==> t.IsFalse(c[1]);
    if WatchesFine(t, c) {
      AttachPropagated(t, own, cr, q);
    }
    if PropOk(t, WithAttached(own, cr), q) {
      var lists := if |c| == 2 then db.bin else db.long;
      LastSettled(t, own.ca, lists, cr, c, 0, q);
      LastSettled(t, own.ca, lists, cr, c, 1, q);
    }
  }

  lemma LastSettled(t: Trail, ca: Arena, lists: Lists, cr: nat, c: seq<Lit>, i: nat, q: nat)
    requires |c| >= 2 && i < 2 && c[0].v != c[1].v && c[0].Neg() in lists && c[1].Neg() in lists
    requires Propagated(t, ca, Watched(lists, cr, c), q) && Live(ca, cr) && !Exempt(ca[cr])
    ensures Processed(t, c[i].Neg(), q) ==> t.IsTrue(c[1 - i])
  {
    var p := c[i].Neg();
    var ws := Watched(lists, cr, c)[p];
    assert ws == lists[p] + [Watcher(cr, c[1 - i])];
    if Processed(t, p, q) {
      assert SettledList(t, ca, ws, p) && Settled(t, ca, ws[|ws| - 1], p);
    }
  }

  /** Lists that do not name cr stay settled whatever becomes of that clause. */
  lemma UnlistedPropagated(t: Trail, ca: Arena, ca': Arena, lists: Lists, cr: nat, q: nat)
    requires Unlisted(lists, cr) && Propagated(t, ca, lists, q) && cr in ca && cr in ca' && ca' == ca[cr := ca'[cr]]
    ensures Propagated(t, ca', lists, q)
  {
    forall p: Lit | p in lists && Processed(t, p, q)
      ensures SettledList(t, ca', lists[p], p)
    {
      assert SettledList(t, ca, lists[p], p);
      forall i | 0 <= i < |lists[p]|
        ensures Settled(t, ca', lists[p][i], p)
      {
        assert !RefIn(lists, p, cr) && Settled(t, ca, lists[p][i], p);
      }
    }
  }

  /** Attaching keeps propagation settled when each watcher would be settled where it goes. */
  lemma AttachPropagated(t: Trail, db: Db, cr: nat, q: nat)
    requires cr in db.ca && |db.ca[cr].lits| >= 2 && DistinctVars(db.ca[cr].lits)
    requires db.ca[cr].lits[0].Neg() in db.long && db.ca[cr].lits[1].Neg() in db.long
    requires db.ca[cr].lits[0].Neg() in db.bin && db.ca[cr].lits[1].Neg() in db.bin
    requires PropOk(t, db, q)
    requires var c := db.ca[cr].lits;
             && (Processed(t, c[0].Neg(), q) ==> Settled(t, db.ca, Watcher(cr, c[1]), c[0].Neg()))
             && (Processed(t, c[1].Neg(), q) ==> Settled(t, db.ca, Watcher(cr, c[0]), c[1].Neg()))
    ensures PropOk(t, WithAttached(db, cr), q)
  {
    var c := db.ca[cr].lits;
    var r0, r1 := c[0].Neg(), c[1].Neg();
    if |c| == 2 {
      AppendKeepsPropagated(t, db.ca, db.bin, q, r0, Watcher(cr, c[1]));
      AppendKeepsPropagated(t, db.ca, db.bin[r0 := db.bin[r0] + [Watcher(cr, c[1])]], q, r1, Watcher(cr, c[0]));
    } else {
      AppendKeepsPropagated(t, db.ca, db.long, q, r0, Watcher(cr, c[1]));
      AppendKeepsPropagated(t, db.ca, db.long[r0 := db.long[r0] + [Watcher(cr, c[1])]], q, r1, Watcher(cr, c[0]));
    }
  }
}
