/** The steps of the propagation loops on the value level: what a visit of one watcher
    does to the invariants. */
module Visits {
  import opened Wrappers
  import opened Cnf
  import opened TrailState
  import opened ClauseDb
  import opened Cuts
  import opened Invariants
  import opened Propagation

  /** Lists that were not smudged only name live clauses. */
  ghost predicate Clean(ca: Arena, lists: Lists, dirties: seq<Lit>) {
    forall p: Lit, cr :: RefIn(lists, p, cr) && p !in dirties ==> Live(ca, cr)
  }

  ghost predicate AllClean(db: Db) {
    Clean(db.ca, db.long, []) && Clean(db.ca, db.bin, []) && Clean(db.ca, db.unary, [])
  }

  /** The trail literal being propagated: true, at position q, on the current level. */
  ghost predicate Current(t: Trail, p: Lit, q: nat) {
    && t.IsTrue(p) && p.v < |t.pos| && p.v < |t.level|
    && t.pos[p.v] == q && t.level[p.v] == |t.lim|
  }

  /** A falsified clause that touches the current level. */
  ghost predicate Conflicting(t: Trail, ca: Arena, cr: nat) {
    && Live(ca, cr) && AllFalse(t, ca[cr].lits)
    && exists i :: 0 <= i < |ca[cr].lits| && OnTop(t, ca[cr].lits[i].v)
  }

  /** Where the queue stands after a conflict in clause cr: at its end, unless the clause is binary.
      A binary clause is met behind the trail literal whose list named it. */
  ghost predicate QueueAfter(t: Trail, ca: Arena, cr: nat, qhead: nat) {
    cr in ca && if |ca[cr].lits| == 2 then MetAt(t, ca[cr], qhead) else qhead == |t.lits|
  }

  /** One literal of c is falsified by the trail literal before qhead; the other one, unless c is
      imported, by a later one. */
  ghost predicate MetAt(t: Trail, c: ClauseRec, qhead: nat) {
    && 0 < qhead <= |t.lits| && t.lits[qhead - 1].Neg() in c.lits
    && (!c.imported ==> forall l :: l in c.lits && l != t.lits[qhead - 1].Neg() ==> AssignedFrom(t, l, qhead))
  }

  ghost predicate AssignedFrom(t: Trail, l: Lit, q: nat) {
    l.v < |t.pos| && q <= t.pos[l.v] < |t.lits|
  }

  ghost predicate OnTop(t: Trail, v: nat) {
    v < |t.level| && t.level[v] == |t.lim|
  }

  ghost predicate BaseOk(t: Trail, db: Db, n: nat, f: Problem) {
    DbOk(db, n, f) && TrailOk(t, db.ca, n, f) && AllClean(db)
  }

  /** The loop over the long watchers of p: done + rest is the list of p, the lists of the
      literals before p are settled, and so is done. */
  ghost predicate LongLoop(t: Trail, db: Db, n: nat, f: Problem, p: Lit, q: nat,
                           done: seq<Watcher>, rest: seq<Watcher>) {
    && BaseOk(t, db, n, f) && PropOk(t, db, q) && Current(t, p, q)
    && p in db.bin && SettledList(t, db.ca, db.bin[p], p)
    && Visiting(t, db.ca, db.long, n, p, done, rest)
  }

  /** What is known about the clause of the next watcher. */
  lemma NextWatcher(t: Trail, db: Db, n: nat, f: Problem, p: Lit, q: nat,
                    done: seq<Watcher>, w: Watcher, rest: seq<Watcher>)
    requires LongLoop(t, db, n, f, p, q, done, [w] + rest)
    ensures Live(db.ca, w.cref) && ClauseOk(db.ca[w.cref], n) && KindOf(db.ca[w.cref]) == Long
    ensures |db.ca[w.cref].lits| > 2
    ensures db.ca[w.cref].lits[0] == p.Neg() || db.ca[w.cref].lits[1] == p.Neg()
    ensures w.blocker in db.ca[w.cref].lits && w.blocker != p.Neg() && w.blocker.v < n
  {
    var ws := db.long[p];
    assert ws[|done|] == w;
    assert ListOk(db.ca, ws, p, Long);
    assert WatcherOk(db.ca, ws[|done|], p, Long);
    assert RefIn(db.long, p, w.cref);
    assert Live(db.ca, w.cref);
    assert ClauseOk(db.ca[w.cref], n);
  }

  lemma TopIsHighest(t: Trail, n: nat, b: Lit, p: Lit)
    requires t.Wf(n) && t.IsTrue(b) && p.v < n && t.level[p.v] == |t.lim|
    ensures t.level[b.v] <= t.level[p.v]
  {
    assert t.Levelled(b.v);
  }

  /** The false literal is moved to position 1. */
  lemma SwapVisit(t: Trail, db: Db, n: nat, f: Problem, p: Lit, q: nat,
                  done: seq<Watcher>, w: Watcher, rest: seq<Watcher>)
    requires LongLoop(t, db, n, f, p, q, done, [w] + rest)
    requires w.cref in db.ca && |db.ca[w.cref].lits| > 2 && db.ca[w.cref].lits[0] == p.Neg()
    ensures LongLoop(t, db.(ca := WithLits(db.ca, w.cref, Swapped(db.ca[w.cref].lits, 0, 1))), n, f, p, q, done, [w] + rest)
  {
    NextWatcher(t, db, n, f, p, q, done, w, rest);
    SwapBase(t, db, n, f, w.cref, q);
    var d := Swapped(db.ca[w.cref].lits, 0, 1);
    SettledReorder(t, db.ca, w.cref, d, done, p);
    SettledReorder(t, db.ca, w.cref, d, db.bin[p], p);
  }

  /** Exchanging the two watched literals of a clause, when none of them needs to stay first. */
  lemma SwapBase(t: Trail, db: Db, n: nat, f: Problem, cr: nat, q: nat)
    requires BaseOk(t, db, n, f) && PropOk(t, db, q) && cr in db.ca && !db.ca[cr].oneWatched && |db.ca[cr].lits| >= 2
    requires |db.ca[cr].lits| == 2 || !t.IsTrue(db.ca[cr].lits[0])
    ensures BaseOk(t, db.(ca := WithLits(db.ca, cr, Swapped(db.ca[cr].lits, 0, 1))), n, f)
    ensures PropOk(t, db.(ca := WithLits(db.ca, cr, Swapped(db.ca[cr].lits, 0, 1))), q)
  {
    var d := Swapped(db.ca[cr].lits, 0, 1);
    assert ClauseOk(db.ca[cr], n);
    SwappedReorders(db.ca[cr].lits, 0, 1);
    ReorderArena(db.ca, cr, d, n, f);
    SwapLists(db.ca, cr, db.long, n, Long);
    SwapLists(db.ca, cr, db.bin, n, Binary);
    SwapLists(db.ca, cr, db.unary, n, Unary);
    ReorderReasons(t, db.ca, cr, d);
    ReorderPropagated(t, db.ca, cr, d, db.long, q);
    ReorderPropagated(t, db.ca, cr, d, db.bin, q);
    ReorderPropagated(t, db.ca, cr, d, db.unary, q);
    ReorderClean(db, cr, d);
  }

  lemma ReorderClean(db: Db, cr: nat, d: seq<Lit>)
    requires cr in db.ca && AllClean(db)
    ensures AllClean(db.(ca := WithLits(db.ca, cr, d)))
  {
    var ca' := WithLits(db.ca, cr, d);
    assert forall x :: Live(db.ca, x) ==> Live(ca', x);
  }

  lemma SettledReorder(t: Trail, ca: Arena, cr: nat, d: seq<Lit>, ws: seq<Watcher>, p: Lit)
    requires cr in ca && SettledList(t, ca, ws, p)
    ensures SettledList(t, WithLits(ca, cr, d), ws, p)
  {
    forall i | 0 <= i < |ws|
      ensures Settled(t, WithLits(ca, cr, d), ws[i], p)
    {
      assert Settled(t, ca, ws[i], p);
    }
  }

  /** The watcher is kept with the first literal, which is true, as its new blocker. */
  lemma KeepVisit(t: Trail, db: Db, n: nat, f: Problem, p: Lit, q: nat,
                  done: seq<Watcher>, w: Watcher, rest: seq<Watcher>, b: Lit)
    requires LongLoop(t, db, n, f, p, q, done, [w] + rest)
    requires w.cref in db.ca && b in db.ca[w.cref].lits && b != p.Neg() && t.IsTrue(b)
    ensures LongLoop(t, db.(long := db.long[p := done + [Watcher(w.cref, b)] + rest]), n, f, p, q,
                     done + [Watcher(w.cref, b)], rest)
  {
    TopIsHighest(t, n, b, p);
    KeepWatcher(t, db.ca, db.long, n, p, done, w, rest, b, q);
    KeepClean(db.ca, db.long, p, done, w, rest, b);
  }

  lemma KeepClean(ca: Arena, lists: Lists, p: Lit, done: seq<Watcher>, w: Watcher, rest: seq<Watcher>, b: Lit)
    requires p in lists && lists[p] == done + ([w] + rest) && Clean(ca, lists, [])
    ensures Clean(ca, lists[p := done + [Watcher(w.cref, b)] + rest], [])
  {
    var lists' := lists[p := done + [Watcher(w.cref, b)] + rest];
    forall r: Lit, cr | RefIn(lists', r, cr)
      ensures Live(ca, cr)
    {
      var i :| 0 <= i < |lists'[r]| && lists'[r][i].cref == cr;
      assert lists[r][i].cref == cr;
      assert RefIn(lists, r, cr);
    }
  }

  /** No other literal is available: the watcher stays and the first literal is false. */
  lemma ConflictVisit(t: Trail, db: Db, n: nat, f: Problem, p: Lit, q: nat,
                      done: seq<Watcher>, w: Watcher, rest: seq<Watcher>, b: Lit)
    requires LongLoop(t, db, n, f, p, q, done, [w] + rest)
    requires w.cref in db.ca && b in db.ca[w.cref].lits && b != p.Neg()
    ensures BaseOk(t, db.(long := db.long[p := done + [Watcher(w.cref, b)] + rest]), n, f)
    ensures PropOk(t, db.(long := db.long[p := done + [Watcher(w.cref, b)] + rest]), q)
  {
    KeepWatcher(t, db.ca, db.long, n, p, done, w, rest, b, q);
    KeepClean(db.ca, db.long, p, done, w, rest, b);
  }

  /** The arena and the lists after the watch moved to the literal at position k. */
  ghost function Moved(db: Db, p: Lit, done: seq<Watcher>, w: Watcher, rest: seq<Watcher>, k: nat): Db
    requires w.cref in db.ca && 2 <= k < |db.ca[w.cref].lits|
    requires p in db.long && db.ca[w.cref].lits[k].Neg() in db.long
  {
    var c := db.ca[w.cref].lits;
    var lists := db.long[p := done + rest];
    db.(ca := WithLits(db.ca, w.cref, Swapped(c, 1, k)),
        long := lists[c[k].Neg() := lists[c[k].Neg()] + [Watcher(w.cref, c[0])]])
  }

  lemma MoveDb(db: Db, n: nat, f: Problem, p: Lit, done: seq<Watcher>, w: Watcher, rest: seq<Watcher>, k: nat)
    requires DbOk(db, n, f) && p in db.long && db.long[p] == done + [w] + rest
    requires Live(db.ca, w.cref) && KindOf(db.ca[w.cref]) == Long
    requires 2 <= k < |db.ca[w.cref].lits| && db.ca[w.cref].lits[1] == p.Neg()
    ensures db.ca[w.cref].lits[k].Neg() in db.long && db.ca[w.cref].lits[k].Neg() != p
    ensures DbOk(Moved(db, p, done, w, rest, k), n, f)
  {
    hide Attached, ListOk, Clean, ArenaSound;
    var cr := w.cref;
    var c := db.ca[cr].lits;
    var d := Swapped(c, 1, k);
    assert ClauseOk(db.ca[cr], n);
    MoveWatcher(db.ca, db.long, n, p, done, w, rest, k);
    SwappedReorders(c, 1, k);
    ReorderArena(db.ca, cr, d, n, f);
    ReorderOtherKind(db.ca, cr, d, db.bin, n, Binary);
    ReorderOtherKind(db.ca, cr, d, db.unary, n, Unary);
  }

  /** A literal that is not false was found at position k. */
  lemma MoveVisit(t: Trail, db: Db, n: nat, f: Problem, p: Lit, q: nat,
                  done: seq<Watcher>, w: Watcher, rest: seq<Watcher>, k: nat)
    requires LongLoop(t, db, n, f, p, q, done, [w] + rest)
    requires w.cref in db.ca && 2 <= k < |db.ca[w.cref].lits|
    requires db.ca[w.cref].lits[1] == p.Neg() && !t.IsTrue(db.ca[w.cref].lits[0]) && !t.IsFalse(db.ca[w.cref].lits[k])
    ensures db.ca[w.cref].lits[k].Neg() in db.long && db.ca[w.cref].lits[k].Neg() != p
    ensures LongLoop(t, Moved(db, p, done, w, rest, k), n, f, p, q, done, rest)
  {
    hide Attached, ListsOk, Propagated, SettledList, ReasonsOk, ArenaOk, ArenaSound, RootSound, Clean;
    NextWatcher(t, db, n, f, p, q, done, w, rest);
    var c := db.ca[w.cref].lits;
    assert done + ([w] + rest) == done + [w] + rest;
    MoveDb(db, n, f, p, done, w, rest, k);
    var r := c[k].Neg();
    assert !t.IsTrue(r);
    MoveRest(t, db, n, f, p, q, done, w, rest, k);
  }

  lemma MoveRest(t: Trail, db: Db, n: nat, f: Problem, p: Lit, q: nat,
                 done: seq<Watcher>, w: Watcher, rest: seq<Watcher>, k: nat)
    requires LongLoop(t, db, n, f, p, q, done, [w] + rest)
    requires Live(db.ca, w.cref) && 2 <= k < |db.ca[w.cref].lits| && ClauseOk(db.ca[w.cref], n)
    requires db.ca[w.cref].lits[k].Neg() in db.long && db.ca[w.cref].lits[k].Neg() != p
    requires !t.IsTrue(db.ca[w.cref].lits[0]) && !t.IsTrue(db.ca[w.cref].lits[k].Neg())
    requires DbOk(Moved(db, p, done, w, rest, k), n, f)
    ensures LongLoop(t, Moved(db, p, done, w, rest, k), n, f, p, q, done, rest)
  {
    hide Attached, ListOk, Propagated, SettledList, ReasonsOk, Reordered, ArenaOk, ArenaSound, RootSound, Clean;
    var cr := w.cref;
    var c := db.ca[cr].lits;
    var d, r := Swapped(c, 1, k), c[k].Neg();
    var ca' := WithLits(db.ca, cr, d);
    SwappedReorders(c, 1, k);
    ReorderReasons(t, db.ca, cr, d);
    ReorderPropagated(t, db.ca, cr, d, db.long, q);
    ReorderPropagated(t, db.ca, cr, d, db.bin, q);
    ReorderPropagated(t, db.ca, cr, d, db.unary, q);
    MovePropagated(t, ca', db.long, p, q, done + rest, r, Watcher(cr, c[0]));
    SettledReorder(t, db.ca, cr, d, done, p);
    SettledReorder(t, db.ca, cr, d, db.bin[p], p);
    ReorderClean(db, cr, d);
    MoveClean(ca', db.long, p, done, w, rest, r, Watcher(cr, c[0]));
  }

  lemma MovePropagated(t: Trail, ca: Arena, lists: Lists, p: Lit, q: nat, ws: seq<Watcher>, r: Lit, w: Watcher)
    requires Propagated(t, ca, lists, q) && p in lists && r in lists && r != p
    requires Current(t, p, q) && !t.IsTrue(r)
    ensures Propagated(t, ca, lists[p := ws][r := lists[p := ws][r] + [w]], q)
  {
    var lists' := lists[p := ws][r := lists[p := ws][r] + [w]];
    forall s: Lit | s in lists' && Processed(t, s, q)
      ensures SettledList(t, ca, lists'[s], s)
    {
      assert s != r && s != p;
      assert lists'[s] == lists[s];
    }
  }

  lemma MoveClean(ca: Arena, lists: Lists, p: Lit, done: seq<Watcher>, w: Watcher, rest: seq<Watcher>, r: Lit, w': Watcher)
    requires p in lists && r in lists && lists[p] == done + ([w] + rest) && Clean(ca, lists, []) && Live(ca, w'.cref)
    ensures Clean(ca, lists[p := done + rest][r := lists[p := done + rest][r] + [w']], [])
  {
    var lists1 := lists[p := done + rest];
    var lists' := lists1[r := lists1[r] + [w']];
    forall s: Lit, cr | RefIn(lists', s, cr)
      ensures Live(ca, cr)
    {
      var i :| 0 <= i < |lists'[s]| && lists'[s][i].cref == cr;
      if i < |lists1[s]| {
        assert lists1[s][i].cref == cr;
        if s == p {
          assert lists[p][if i < |done| then i else i + 1].cref == cr;
        }
        assert RefIn(lists, s, cr);
      }
    }
  }

  lemma CurrentBounds(t: Trail, db: Db, n: nat, f: Problem, p: Lit, q: nat)
    requires BaseOk(t, db, n, f) && Current(t, p, q)
    ensures t.Wf(n) && q <= |t.lits|
  {
  }

  /** Enqueueing a propagated literal keeps the loop invariant. */
  lemma PushVisit(t: Trail, db: Db, n: nat, f: Problem, p: Lit, q: nat,
                  done: seq<Watcher>, rest: seq<Watcher>, x: Lit, cr: nat)
    requires LongLoop(t, db, n, f, p, q, done, rest)
    requires x.v < n && t.IsUndef(x) && Live(db.ca, cr) && !db.ca[cr].oneWatched && UnitFor(t, db.ca[cr].lits, x)
    ensures LongLoop(t.Push(x, Some(cr)), db, n, f, p, q, done, rest)
    ensures t.Push(x, Some(cr)).IsTrue(x)
    ensures Extends(t, t.Push(x, Some(cr)))
  {
    hide BaseOk, PropOk, ListsOk, Attached, SettledList;
    CurrentBounds(t, db, n, f, p, q);
    PushBase(t, db, n, f, x, cr, q);
    PushWf(t, n, x, Some(cr));
    PushSettled(t, db.ca, n, done, p, x, Some(cr));
    PushSettled(t, db.ca, n, db.bin[p], p, x, Some(cr));
  }

  lemma PushBase(t: Trail, db: Db, n: nat, f: Problem, x: Lit, cr: nat, q: nat)
    requires BaseOk(t, db, n, f) && PropOk(t, db, q) && q <= |t.lits|
    requires x.v < n && t.IsUndef(x) && Live(db.ca, cr) && !db.ca[cr].oneWatched && UnitFor(t, db.ca[cr].lits, x)
    ensures BaseOk(t.Push(x, Some(cr)), db, n, f) && PropOk(t.Push(x, Some(cr)), db, q)
    ensures Extends(t, t.Push(x, Some(cr)))
  {
    assert Entails(f.clauses, db.ca[cr].lits);
    PushForced(t, db.ca, n, f, x, cr);
    PushPropagated(t, db.ca, n, db.long, q, x, Some(cr));
    PushPropagated(t, db.ca, n, db.bin, q, x, Some(cr));
    PushPropagated(t, db.ca, n, db.unary, q, x, Some(cr));
    PushExtends(t, n, x, Some(cr));
  }

  // ---------- binary clauses ----------

  /** The loop over the binary watchers of p, of which done have been visited. */
  ghost predicate BinaryLoop(t: Trail, db: Db, n: nat, f: Problem, p: Lit, q: nat, done: seq<Watcher>) {
    && BaseOk(t, db, n, f) && PropOk(t, db, q) && Current(t, p, q) && q <= |t.lits|
    && p in db.bin && SettledList(t, db.ca, done, p)
  }

  /** The clause of a binary watcher joins the false literal and the blocker. */
  ghost predicate BinaryClause(c: ClauseRec, p: Lit, b: Lit) {
    && !c.oneWatched && p.v != b.v
    && (c.lits == [p.Neg(), b] || c.lits == [b, p.Neg()])
  }

  /** What is known about the k-th binary watcher of p. */
  lemma BinaryWatcher(ca: Arena, bin: Lists, n: nat, p: Lit, k: nat)
    requires ListsOk(ca, bin, n, Binary) && ArenaOk(ca, n) && Clean(ca, bin, [])
    requires p in bin && k < |bin[p]|
    ensures Live(ca, bin[p][k].cref) && bin[p][k].blocker.v < n
    ensures BinaryClause(ca[bin[p][k].cref], p, bin[p][k].blocker)
  {
    var w := bin[p][k];
    assert ListOk(ca, bin[p], p, Binary);
    assert WatcherOk(ca, w, p, Binary);
    assert RefIn(bin, p, w.cref);
    assert Live(ca, w.cref);
    assert ClauseOk(ca[w.cref], n);
  }

  lemma BinaryNext(t: Trail, db: Db, n: nat, f: Problem, p: Lit, q: nat, k: nat)
    requires p in db.bin && k < |db.bin[p]| && BinaryLoop(t, db, n, f, p, q, db.bin[p][..k])
    ensures Live(db.ca, db.bin[p][k].cref) && db.bin[p][k].blocker.v < n == |t.assigns|
    ensures t.Sized(n) && Current(t, p, q)
    ensures BinaryClause(db.ca[db.bin[p][k].cref], p, db.bin[p][k].blocker)
  {
    hide ListsOk, ArenaOk, Clean, Attached, ArenaSound, RootSound, ReasonsOk, SettledList, PropOk;
    BinaryWatcher(db.ca, db.bin, n, p, k);
  }

  lemma BinaryConflict(t: Trail, ca: Arena, p: Lit, q: nat, b: Lit, cr: nat)
    requires Current(t, p, q) && Live(ca, cr) && BinaryClause(ca[cr], p, b) && t.IsFalse(b)
    ensures Conflicting(t, ca, cr)
  {
    var c := ca[cr].lits;
    assert t.IsFalse(p.Neg());
    assert OnTop(t, p.v);
    assert c[0].v == p.v || c[1].v == p.v;
  }

  /** Of the two literals of a clause that is not imported, p is the first one on the trail:
      the other one would have made it true. */
  lemma MetAtFirst(t: Trail, db: Db, n: nat, f: Problem, p: Lit, q: nat, done: seq<Watcher>, b: Lit, cr: nat)
    requires BinaryLoop(t, db, n, f, p, q, done) && Live(db.ca, cr) && BinaryClause(db.ca[cr], p, b) && t.IsFalse(b)
    ensures QueueAfter(t, db.ca, cr, q + 1)
  {
    hide ListsOk, ArenaOk, ArenaSound, RootSound, ReasonsOk, SettledList, AllClean, Propagated;
    var c := db.ca[cr];
    assert t.IsTrue(t.lits[q]) && t.lits[q] == p;
    assert c.lits[0] == p.Neg() || c.lits[1] == p.Neg();
    forall l | l in c.lits && l != p.Neg() && !c.imported
      ensures AssignedFrom(t, l, q + 1)
    {
      assert l == b && t.lits[t.pos[b.v]].v == b.v;
      assert c.lits[0] == b || c.lits[1] == b;
      assert AttachedAt(c, cr, db.bin, Binary);
      OtherTrue(t, db.ca, db.bin, n, p, q, b, cr);
    }
  }

  /** A clause that is not imported leaves an empty queue exactly if it has more than two literals. */
  lemma QueueAfterOwn(t: Trail, db: Db, n: nat, f: Problem, cr: nat, qhead: nat)
    requires QueueAfter(t, db.ca, cr, qhead) && BaseOk(t, db, n, f)
    ensures qhead <= |t.lits| && cr in db.ca
    ensures !db.ca[cr].imported ==> (qhead == |t.lits| <==> |db.ca[cr].lits| > 2)
  {
    hide ListsOk, Attached, ArenaSound, RootSound, ReasonsOk, AllClean;
    var c := db.ca[cr];
    assert ClauseOk(c, n);
    if |c.lits| == 2 {
      assert c.lits[0] in c.lits && c.lits[1] in c.lits;
    }
  }

  /** Once the false literal b of a binary clause is propagated, the other one is true. */
  lemma OtherTrue(t: Trail, ca: Arena, bin: Lists, n: nat, p: Lit, q: nat, b: Lit, cr: nat)
    requires ListsOk(ca, bin, n, Binary) && Propagated(t, ca, bin, q)
    requires Live(ca, cr) && BinaryClause(ca[cr], p, b) && !ca[cr].imported && RefIn(bin, b.Neg(), cr)
    ensures Processed(t, b.Neg(), q) ==> t.IsTrue(p.Neg())
  {
    var s := b.Neg();
    if Processed(t, s, q) {
      assert ListOk(ca, bin[s], s, Binary) && SettledList(t, ca, bin[s], s);
      var i :| 0 <= i < |bin[s]| && bin[s][i].cref == cr;
      assert WatcherOk(ca, bin[s][i], s, Binary) && Settled(t, ca, bin[s][i], s);
      assert bin[s][i].blocker == p.Neg();
    }
  }

  lemma BinaryPush(t: Trail, db: Db, n: nat, f: Problem, p: Lit, q: nat, done: seq<Watcher>, b: Lit, cr: nat)
    requires BinaryLoop(t, db, n, f, p, q, done)
    requires b.v < n && t.IsUndef(b) && Live(db.ca, cr) && BinaryClause(db.ca[cr], p, b)
    ensures t.Sized(n) && BinaryLoop(t.Push(b, Some(cr)), db, n, f, p, q, done)
    ensures t.Push(b, Some(cr)).IsTrue(b)
    ensures Extends(t, t.Push(b, Some(cr)))
  {
    hide DbOk, RootSound, ReasonsOk, SettledList, PropOk, AllClean;
    assert t.IsFalse(p.Neg());
    assert UnitFor(t, db.ca[cr].lits, b);
    PushBase(t, db, n, f, b, cr, q);
    PushWf(t, n, b, Some(cr));
    PushSettled(t, db.ca, n, done, p, b, Some(cr));
  }

  lemma BinaryKeep(t: Trail, db: Db, n: nat, f: Problem, p: Lit, q: nat, ws: seq<Watcher>, k: nat)
    requires k < |ws| && BinaryLoop(t, db, n, f, p, q, ws[..k]) && t.IsTrue(ws[k].blocker)
    ensures BinaryLoop(t, db, n, f, p, q, ws[..k + 1])
  {
    hide DbOk, RootSound, ReasonsOk, PropOk, AllClean;
    TopIsHighest(t, n, ws[k].blocker, p);
    assert ws[..k + 1] == ws[..k] + [ws[k]];
  }

  // ---------- compacting the list of p in place ----------

  /** The lists as they will be once the part of the list of p between j and i is cut out. */
  ghost function Logical(lists: Lists, p: Lit, i: nat, j: nat): Lists
    requires p in lists && j <= i <= |lists[p]|
  {
    lists[p := lists[p][..j] + lists[p][i..]]
  }

  /** The list of p with w written to index j. */
  function Written(lists: Lists, p: Lit, j: nat, w: Watcher): Lists
    requires p in lists && j < |lists[p]|
  {
    lists[p := lists[p][j := w]]
  }

  lemma Compact(lists: Lists, p: Lit, i: nat, j: nat, w: Watcher)
    requires p in lists && j <= i < |lists[p]|
    ensures var lists' := Written(lists, p, j, w);
            && |lists'[p]| == |lists[p]|
            && lists'[p][..j + 1] == lists[p][..j] + [w]
            && lists'[p][i + 1..] == lists[p][i + 1..]
            && Logical(lists', p, i + 1, j + 1) == Logical(lists, p, i, j)[p := lists[p][..j] + [w] + lists[p][i + 1..]]
    ensures lists[p][i..] == [lists[p][i]] + lists[p][i + 1..]
  {
  }

  lemma CompactCopy(lists: Lists, p: Lit, i: nat, j: nat)
    requires p in lists && j <= i < |lists[p]|
    ensures Logical(Written(lists, p, j, lists[p][i]), p, i + 1, j + 1) == Logical(lists, p, i, j)
  {
    Compact(lists, p, i, j, lists[p][i]);
    assert lists[p][..j] + [lists[p][i]] + lists[p][i + 1..] == lists[p][..j] + lists[p][i..];
  }

  lemma CompactMove(lists: Lists, p: Lit, i: nat, j: nat, r: Lit, w: Watcher)
    requires p in lists && r in lists && r != p && j <= i < |lists[p]|
    ensures var lists' := lists[r := lists[r] + [w]];
            var dropped := Logical(lists, p, i, j)[p := lists[p][..j] + lists[p][i + 1..]];
            && Logical(lists', p, i + 1, j) == dropped[r := dropped[r] + [w]]
            && lists'[p] == lists[p]
  {
  }

  /** The loop over the long watchers of p has reached index i and kept j watchers. */
  ghost predicate LongAt(t: Trail, db: Db, f: Problem, p: Lit, q: nat, i: nat, j: nat) {
    && p in db.long && j <= i <= |db.long[p]|
    && LongLoop(t, db.(long := Logical(db.long, p, i, j)), |t.assigns|, f, p, q, db.long[p][..j], db.long[p][i..])
  }

  /** The clause c watched at index i: long, and the false literal is one of its watches. */
  ghost predicate LongClause(ca: Arena, n: nat, p: Lit, w: Watcher) {
    && Live(ca, w.cref) && ClauseOk(ca[w.cref], n) && |ca[w.cref].lits| > 2 && !ca[w.cref].oneWatched
    && w.blocker in ca[w.cref].lits && w.blocker != p.Neg() && w.blocker.v < n
    && (ca[w.cref].lits[0] == p.Neg() || ca[w.cref].lits[1] == p.Neg())
  }

  lemma ClauseAt(t: Trail, db: Db, f: Problem, p: Lit, q: nat, i: nat, j: nat)
    requires LongAt(t, db, f, p, q, i, j)
    ensures p in db.long && j <= i <= |db.long[p]| && t.Wf(|t.assigns|) && t.IsTrue(p) && OnTop(t, p.v)
    ensures i < |db.long[p]| ==> LongClause(db.ca, |t.assigns|, p, db.long[p][i])
  {
    if i < |db.long[p]| {
      hide LongLoop;
      Compact(db.long, p, i, j, db.long[p][i]);
      NextWatcher(t, db.(long := Logical(db.long, p, i, j)), |t.assigns|, f, p, q,
                  db.long[p][..j], db.long[p][i], db.long[p][i + 1..]);
    }
  }

  /** The clause with its first two literals exchanged. */
  function SwapWatches(ca: Arena, cr: nat): Arena
    requires cr in ca && |ca[cr].lits| >= 2
  {
    WithLits(ca, cr, Swapped(ca[cr].lits, 0, 1))
  }

  lemma SwapAt(t: Trail, db: Db, f: Problem, p: Lit, q: nat, i: nat, j: nat)
    requires LongAt(t, db, f, p, q, i, j) && p in db.long && i < |db.long[p]|
    requires LongClause(db.ca, |t.assigns|, p, db.long[p][i])
    requires db.ca[db.long[p][i].cref].lits[0] == p.Neg()
    ensures LongAt(t, db.(ca := SwapWatches(db.ca, db.long[p][i].cref)), f, p, q, i, j)
  {
    hide LongLoop;
    Compact(db.long, p, i, j, db.long[p][i]);
    SwapVisit(t, db.(long := Logical(db.long, p, i, j)), |t.assigns|, f, p, q,
              db.long[p][..j], db.long[p][i], db.long[p][i + 1..]);
  }

  lemma KeepAt(t: Trail, db: Db, f: Problem, p: Lit, q: nat, i: nat, j: nat, b: Lit)
    requires LongAt(t, db, f, p, q, i, j) && p in db.long && j <= i < |db.long[p]|
    requires db.long[p][i].cref in db.ca && b in db.ca[db.long[p][i].cref].lits && b != p.Neg() && t.IsTrue(b)
    ensures LongAt(t, db.(long := Written(db.long, p, j, Watcher(db.long[p][i].cref, b))), f, p, q, i + 1, j + 1)
  {
    hide LongLoop;
    Compact(db.long, p, i, j, Watcher(db.long[p][i].cref, b));
    KeepVisit(t, db.(long := Logical(db.long, p, i, j)), |t.assigns|, f, p, q,
              db.long[p][..j], db.long[p][i], db.long[p][i + 1..], b);
  }

  /** The second watch of the clause goes to position k, a new watcher to the list of that literal. */
  function Rewatch(db: Db, w: Watcher, k: nat): Db
    requires w.cref in db.ca && 2 <= k < |db.ca[w.cref].lits| && db.ca[w.cref].lits[k].Neg() in db.long
  {
    var c := db.ca[w.cref].lits;
    db.(ca := WithLits(db.ca, w.cref, Swapped(c, 1, k)),
        long := db.long[c[k].Neg() := db.long[c[k].Neg()] + [Watcher(w.cref, c[0])]])
  }

  lemma MoveAt(t: Trail, db: Db, f: Problem, p: Lit, q: nat, i: nat, j: nat, k: nat)
    requires LongAt(t, db, f, p, q, i, j) && p in db.long && i < |db.long[p]|
    requires db.long[p][i].cref in db.ca
    requires var c := db.ca[db.long[p][i].cref].lits;
             2 <= k < |c| && c[1] == p.Neg() && !t.IsTrue(c[0]) && !t.IsFalse(c[k])
    ensures db.ca[db.long[p][i].cref].lits[k].Neg() in db.long
    ensures LongAt(t, Rewatch(db, db.long[p][i], k), f, p, q, i + 1, j)
    ensures p in Rewatch(db, db.long[p][i], k).long && Rewatch(db, db.long[p][i], k).long[p] == db.long[p]
  {
    hide LongLoop;
    var w := db.long[p][i];
    var c := db.ca[w.cref].lits;
    Compact(db.long, p, i, j, w);
    MoveVisit(t, db.(long := Logical(db.long, p, i, j)), |t.assigns|, f, p, q,
              db.long[p][..j], w, db.long[p][i + 1..], k);
    CompactMove(db.long, p, i, j, c[k].Neg(), Watcher(w.cref, c[0]));
  }

  lemma UnitAt(t: Trail, db: Db, f: Problem, p: Lit, q: nat, i: nat, j: nat)
    requires LongAt(t, db, f, p, q, i, j) && p in db.long && i < |db.long[p]|
    requires LongClause(db.ca, |t.assigns|, p, db.long[p][i])
    requires var c := db.ca[db.long[p][i].cref].lits;
             c[1] == p.Neg() && t.IsUndef(c[0]) && forall k :: 2 <= k < |c| ==> t.IsFalse(c[k])
    ensures t.Sized(|t.assigns|)
    ensures var cr := db.long[p][i].cref; var t' := t.Push(db.ca[cr].lits[0], Some(cr));
            LongAt(t', db, f, p, q, i, j) && t'.IsTrue(db.ca[cr].lits[0]) && Extends(t, t')
  {
    hide LongLoop, Extends;
    ClauseAt(t, db, f, p, q, i, j);
    var cr := db.long[p][i].cref;
    assert UnitFor(t, db.ca[cr].lits, db.ca[cr].lits[0]);
    PushVisit(t, db.(long := Logical(db.long, p, i, j)), |t.assigns|, f, p, q,
              db.long[p][..j], db.long[p][i..], db.ca[cr].lits[0], cr);
  }

  lemma ConflictAt(t: Trail, db: Db, f: Problem, p: Lit, q: nat, i: nat, j: nat)
    requires LongAt(t, db, f, p, q, i, j) && p in db.long && j <= i < |db.long[p]|
    requires LongClause(db.ca, |t.assigns|, p, db.long[p][i])
    requires var c := db.ca[db.long[p][i].cref].lits;
             c[1] == p.Neg() && t.IsFalse(c[0]) && forall k :: 2 <= k < |c| ==> t.IsFalse(c[k])
    ensures Conflicting(t, db.ca, db.long[p][i].cref)
    ensures var w' := Watcher(db.long[p][i].cref, db.ca[db.long[p][i].cref].lits[0]);
            var db' := db.(long := Written(db.long, p, j, w'));
            Between(t, db', f, p, q, i + 1, j + 1)
  {
    hide LongLoop, BaseOk, PropOk;
    ClauseAt(t, db, f, p, q, i, j);
    var c := db.ca[db.long[p][i].cref].lits;
    assert t.IsFalse(p.Neg()) && OnTop(t, c[1].v);
    var w' := Watcher(db.long[p][i].cref, c[0]);
    assert c[0] in c && c[0].v != c[1].v;
    Compact(db.long, p, i, j, w');
    ConflictVisit(t, db.(long := Logical(db.long, p, i, j)), |t.assigns|, f, p, q,
                  db.long[p][..j], db.long[p][i], db.long[p][i + 1..], c[0]);
  }

  /** The watchers between i and the end are still to be copied to j. */
  ghost predicate Between(t: Trail, db: Db, f: Problem, p: Lit, q: nat, i: nat, j: nat) {
    && p in db.long && j <= i <= |db.long[p]|
    && BaseOk(t, db.(long := Logical(db.long, p, i, j)), |t.assigns|, f)
    && PropOk(t, db.(long := Logical(db.long, p, i, j)), q)
  }

  lemma ShrunkOk(t: Trail, db: Db, f: Problem, p: Lit, q: nat, j: nat)
    requires p in db.long && Between(t, db, f, p, q, |db.long[p]|, j)
    ensures j <= |db.long[p]|
    ensures BaseOk(t, db.(long := db.long[p := db.long[p][..j]]), |t.assigns|, f)
    ensures PropOk(t, db.(long := db.long[p := db.long[p][..j]]), q)
  {
    assert db.long[p][|db.long[p]|..] == [];
    assert db.long[p][..j] + [] == db.long[p][..j];
    hide BaseOk, PropOk;
  }

  lemma ShrunkSettled(t: Trail, db: Db, f: Problem, p: Lit, q: nat, j: nat)
    requires p in db.long && LongAt(t, db, f, p, q, |db.long[p]|, j)
    ensures j <= |db.long[p]|
    ensures LongLoop(t, db.(long := db.long[p := db.long[p][..j]]), |t.assigns|, f, p, q, db.long[p][..j], [])
  {
    assert db.long[p][|db.long[p]|..] == [];
    assert db.long[p][..j] + [] == db.long[p][..j];
    hide LongLoop;
  }
}
