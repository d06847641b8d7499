/** The copying collector of the clause arena: clauses are copied once, references are
    forwarded, and the clause graph stays the same. */
module Collection {
  import opened Wrappers
  import opened Cnf
  import opened TrailState
  import opened ClauseDb
  import opened Cuts
  import opened Invariants
  import opened Visits
  import opened PropagationQueue
  import opened SearchSteps
  import opened FinalConflict
  import opened ProblemClauses

  /** A cell of the old region: a clause, or the reference of its copy. The forwarding reference
      overwrites the first literal, so a moved cell cannot be read as a clause. */
  datatype Cell = Intact(c: ClauseRec) | Moved(to: nat)

  type Space = map<nat, Cell>

  ghost predicate Forwards(src: Space, cr: nat, d: nat) {
    cr in src && src[cr] == Moved(d)
  }

  /** Cells move once and stay where they are. */
  ghost predicate Later(src: Space, src': Space) {
    src'.Keys == src.Keys && forall cr, d :: Forwards(src, cr, d) ==> Forwards(src', cr, d)
  }

  /** The copy of the moved clauses of ca in the new region: same content, one copy each. */
  ghost predicate Copying(ca: Arena, src: Space, to: Arena, next: nat) {
    && src.Keys == ca.Keys
    && (forall cr :: cr in ca && src[cr].Intact? ==> src[cr].c == ca[cr])
    && (forall cr, d :: Forwards(src, cr, d) ==> d in to && to[d] == ca[cr])
    && (forall cr, x, d :: Forwards(src, cr, d) && Forwards(src, x, d) ==> cr == x)
    && (forall d :: d in to ==> d < next && exists cr :: Forwards(src, cr, d))
  }

  /** The flags that are copied: only learnt clauses carry the one-watched flag. */
  function Copied(c: ClauseRec): ClauseRec {
    ClauseRec(c.lits, c.learnt, c.deleted, c.learnt && c.oneWatched, c.imported, c.unseen)
  }

  ghost predicate FlagsOk(ca: Arena) {
    forall cr :: cr in ca && ca[cr].oneWatched ==> ca[cr].learnt
  }

  ghost predicate MovedWatchers(src: Space, ws: seq<Watcher>, ws': seq<Watcher>) {
    && |ws'| == |ws|
    && forall i :: 0 <= i < |ws| ==> ws'[i].blocker == ws[i].blocker && Forwards(src, ws[i].cref, ws'[i].cref)
  }

  ghost predicate MovedRefs(src: Space, crs: seq<nat>, crs': seq<nat>) {
    |crs'| == |crs| && forall i :: 0 <= i < |crs| ==> Forwards(src, crs[i], crs'[i])
  }

  ghost predicate Known(ca: Arena, ws: seq<Watcher>) {
    forall i :: 0 <= i < |ws| ==> ws[i].cref in ca
  }

  class Collector {
    ghost const ca: Arena
    /** The old region, and the new one with its allocation pointer. */
    var src: Space
    var to: Arena
    var next: nat

    ghost predicate Valid()
      reads this
    {
      Copying(ca, src, to, next) && FlagsOk(ca)
    }

    constructor (arena: Arena)
      requires FlagsOk(arena)
      ensures Valid() && ca == arena
    {
      ca := arena;
      src := map cr | cr in arena :: Intact(arena[cr]);
      to, next := map[], 0;
    }

    /** ClauseAllocator::reloc: copies a clause on the first visit and forwards the reference. */
    method Reloc(cr: nat) returns (d: nat)
      requires Valid() && cr in src
      modifies this`src, this`to, this`next
      ensures Valid() && Forwards(src, cr, d) && Later(old(src), src)
    {
      match src[cr]
      case Moved(r) =>
        d := r;
      case Intact(c) =>
        CopyOne(ca, src, to, next, cr);
        d := next;
        next := next + ClauseWords(c);
        to := to[d := Copied(c)];
        src := src[cr := Moved(d)];
    }

    method RelocWatchers(ws: seq<Watcher>) returns (r: seq<Watcher>)
      requires Valid() && Known(ca, ws)
      modifies this`src, this`to, this`next
      ensures Valid() && MovedWatchers(src, ws, r) && Later(old(src), src)
    {
      r := [];
      for j := 0 to |ws|
        invariant Valid() && Later(old(src), src) && |r| == j
        invariant forall i :: 0 <= i < j ==> r[i].blocker == ws[i].blocker && Forwards(src, ws[i].cref, r[i].cref)
      {
        var d := Reloc(ws[j].cref);
        r := r + [Watcher(d, ws[j].blocker)];
      }
    }

    /** Forwards the references of a clause list. */
    method RelocRefs(crs: seq<nat>) returns (r: seq<nat>)
      requires Valid() && forall i :: 0 <= i < |crs| ==> crs[i] in ca
      modifies this`src, this`to, this`next
      ensures Valid() && MovedRefs(src, crs, r) && Later(old(src), src)
    {
      r := [];
      for j := 0 to |crs|
        invariant Valid() && Later(old(src), src) && |r| == j
        invariant forall i :: 0 <= i < j ==> Forwards(src, crs[i], r[i])
      {
        var d := Reloc(crs[j]);
        r := r + [d];
      }
    }
  }

  lemma CopyOne(ca: Arena, src: Space, to: Arena, next: nat, cr: nat)
    requires Copying(ca, src, to, next) && FlagsOk(ca) && cr in src && src[cr].Intact?
    ensures Copying(ca, src[cr := Moved(next)], to[next := Copied(src[cr].c)], next + ClauseWords(src[cr].c))
    ensures Later(src, src[cr := Moved(next)])
  {
    var src', to' := src[cr := Moved(next)], to[next := Copied(src[cr].c)];
    assert next !in to;
    assert Copied(ca[cr]) == ca[cr];
    assert Forwards(src', cr, next);
    forall x, d | Forwards(src', x, d)
      ensures d in to' && to'[d] == ca[x]
    {
      assert x != cr ==> Forwards(src, x, d);
    }
    forall x, y, d | Forwards(src', x, d) && Forwards(src', y, d)
      ensures x == y
    {
      assert x != cr ==> Forwards(src, x, d);
      assert y != cr ==> Forwards(src, y, d);
    }
    forall d | d in to'
      ensures exists x :: Forwards(src', x, d)
    {
      if d != next {
        var x :| Forwards(src, x, d);
        assert Forwards(src', x, d);
      }
    }
  }

  lemma LaterTransitive(a: Space, b: Space, c: Space)
    requires Later(a, b) && Later(b, c)
    ensures Later(a, c)
  {
  }

  lemma LaterWatchers(src: Space, src': Space, ws: seq<Watcher>, ws': seq<Watcher>)
    requires MovedWatchers(src, ws, ws') && Later(src, src')
    ensures MovedWatchers(src', ws, ws')
  {
  }

  lemma LaterRefs(src: Space, src': Space, crs: seq<nat>, crs': seq<nat>)
    requires MovedRefs(src, crs, crs') && Later(src, src')
    ensures MovedRefs(src', crs, crs')
  {
  }

  // ---------- the moved state ----------

  ghost predicate MovedLists(src: Space, lists: Lists, lists': Lists) {
    lists'.Keys == lists.Keys && forall p :: p in lists ==> MovedWatchers(src, lists[p], lists'[p])
  }

  ghost predicate MovedDb(src: Space, db: Db, db': Db) {
    MovedLists(src, db.long, db'.long) && MovedLists(src, db.bin, db'.bin) && MovedLists(src, db.unary, db'.unary)
  }

  /** Only the reasons of assigned variables matter: they are forwarded. */
  ghost predicate MovedTrail(src: Space, t: Trail, t': Trail) {
    && t' == t.(reason := t'.reason) && |t'.reason| == |t.reason|
    && forall v: nat :: t.Assigned(v) && v < |t.reason| ==> MovedReason(src, t.reason[v], t'.reason[v])
  }

  ghost predicate MovedReason(src: Space, r: Option<nat>, r': Option<nat>) {
    if r.None? then r'.None? else r'.Some? && Forwards(src, r.value, r'.value)
  }

  /** The record of the problem after the collection. */
  ghost function Rekeyed(f: Problem, to: Arena): Problem {
    f.(store := map d | d in to :: ContentOf(to[d]))
  }

  lemma MovedRef(src: Space, lists: Lists, lists': Lists, p: Lit)
    requires MovedLists(src, lists, lists')
    ensures forall cr, d :: RefIn(lists, p, cr) && Forwards(src, cr, d) ==> RefIn(lists', p, d)
    ensures forall d :: RefIn(lists', p, d) ==> exists cr :: RefIn(lists, p, cr) && Forwards(src, cr, d)
    ensures forall cr :: RefIn(lists, p, cr) ==> exists d :: Forwards(src, cr, d)
  {
    forall cr | RefIn(lists, p, cr)
      ensures exists d :: Forwards(src, cr, d) && RefIn(lists', p, d)
    {
      assert MovedWatchers(src, lists[p], lists'[p]);
      var i :| 0 <= i < |lists[p]| && lists[p][i].cref == cr;
      assert Forwards(src, cr, lists'[p][i].cref) && HasRef(lists'[p], lists'[p][i].cref);
    }
    forall d | RefIn(lists', p, d)
      ensures exists cr :: RefIn(lists, p, cr) && Forwards(src, cr, d)
    {
      assert MovedWatchers(src, lists[p], lists'[p]);
      var i :| 0 <= i < |lists'[p]| && lists'[p][i].cref == d;
      assert Forwards(src, lists[p][i].cref, d) && HasRef(lists[p], lists[p][i].cref);
    }
  }

  /** One scheme after the collection. */
  lemma MovedScheme(ca: Arena, src: Space, to: Arena, next: nat, lists: Lists, lists': Lists, n: nat, kind: Kind)
    requires Copying(ca, src, to, next) && MovedLists(src, lists, lists')
    requires ListsOk(ca, lists, n, kind) && Attached(ca, lists, kind) && Clean(ca, lists, [])
    ensures ListsOk(to, lists', n, kind) && Attached(to, lists', kind) && Clean(to, lists', [])
  {
    forall p: Lit | p in lists'
      ensures ListOk(to, lists'[p], p, kind)
    {
      MovedList(ca, src, to, next, lists[p], lists'[p], p, kind);
    }
    forall d | Live(to, d)
      ensures AttachedAt(to[d], d, lists', kind)
    {
      var cr :| Forwards(src, cr, d);
      assert AttachedAt(ca[cr], cr, lists, kind);
      if |to[d].lits| >= 2 {
        MovedRef(src, lists, lists', to[d].lits[0].Neg());
        MovedRef(src, lists, lists', to[d].lits[1].Neg());
      }
    }
    forall p: Lit, d | RefIn(lists', p, d)
      ensures Live(to, d)
    {
      MovedRef(src, lists, lists', p);
      var cr :| RefIn(lists, p, cr) && Forwards(src, cr, d);
      assert Live(ca, cr);
    }
  }

  lemma MovedList(ca: Arena, src: Space, to: Arena, next: nat, ws: seq<Watcher>, ws': seq<Watcher>, p: Lit, kind: Kind)
    requires Copying(ca, src, to, next) && MovedWatchers(src, ws, ws') && ListOk(ca, ws, p, kind)
    ensures ListOk(to, ws', p, kind)
  {
    forall i | 0 <= i < |ws'|
      ensures WatcherOk(to, ws'[i], p, kind)
    {
      assert WatcherOk(ca, ws[i], p, kind) && Forwards(src, ws[i].cref, ws'[i].cref);
    }
    forall i, j | 0 <= i < j < |ws'|
      ensures ws'[i].cref != ws'[j].cref
    {
      assert Forwards(src, ws[i].cref, ws'[i].cref) && Forwards(src, ws[j].cref, ws'[j].cref);
    }
  }

  lemma MovedArena(ca: Arena, src: Space, to: Arena, next: nat, n: nat, f: Problem)
    requires Copying(ca, src, to, next) && ArenaOk(ca, n) && ArenaSound(ca, f)
    ensures ArenaOk(to, n) && ArenaSound(to, Rekeyed(f, to))
  {
    forall d | d in to
      ensures ClauseOk(to[d], n) && Entails(f.clauses, to[d].lits)
    {
      var cr :| Forwards(src, cr, d);
      assert ClauseOk(ca[cr], n) && Entails(f.clauses, ca[cr].lits);
    }
  }

  lemma MovedReasons(t: Trail, t': Trail, ca: Arena, src: Space, to: Arena, next: nat, n: nat, f: Problem)
    requires Copying(ca, src, to, next) && MovedTrail(src, t, t') && TrailOk(t, ca, n, f)
    ensures TrailOk(t', to, n, Rekeyed(f, to))
  {
    assert forall v: nat :: t'.Assigned(v) <==> t.Assigned(v);
    assert forall v: nat :: t.Assigned(v) ==> t'.TrueLit(v) == t.TrueLit(v);
    assert t'.Indexed();
    assert forall v :: 0 <= v < n && t'.assigns[v] != LUndef ==> t.Levelled(v) && t'.Levelled(v);
    forall v: nat | v < n
      ensures ReasonOkAt(t', to, v)
    {
      if t.Assigned(v) {
        assert ReasonOkAt(t, ca, v) && MovedReason(src, t.reason[v], t'.reason[v]);
        if t.reason[v].Some? {
          SameReasonFor(t, t', ca[t.reason[v].value].lits, v);
        }
      }
    }
  }

  lemma SameReasonFor(t: Trail, t': Trail, c: seq<Lit>, v: nat)
    requires t.Sized(|t.assigns|) && t' == t.(reason := t'.reason) && t.Assigned(v) && ReasonFor(t, c, t.TrueLit(v))
    ensures ReasonFor(t', c, t'.TrueLit(v))
  {
    forall k | 0 <= k < |c| && c[k] != t'.TrueLit(v)
      ensures FalseBefore(t', c[k], v)
    {
      assert FalseBefore(t, c[k], v);
    }
  }

  lemma MovedPropagated(t: Trail, t': Trail, ca: Arena, src: Space, to: Arena, next: nat, lists: Lists, lists': Lists, q: nat)
    requires Copying(ca, src, to, next) && MovedLists(src, lists, lists') && MovedTrail(src, t, t')
    requires Propagated(t, ca, lists, q)
    ensures Propagated(t', to, lists', q)
  {
    forall p: Lit | p in lists' && Processed(t', p, q)
      ensures SettledList(t', to, lists'[p], p)
    {
      assert Processed(t, p, q) && SettledList(t, ca, lists[p], p) && MovedWatchers(src, lists[p], lists'[p]);
      forall i | 0 <= i < |lists'[p]|
        ensures Settled(t', to, lists'[p][i], p)
      {
        assert Settled(t, ca, lists[p][i], p) && Forwards(src, lists[p][i].cref, lists'[p][i].cref);
      }
    }
  }

  /** The engine invariant holds of the collected state. */
  lemma CollectedInv(t: Trail, t': Trail, db: Db, db': Db, src: Space, f: Problem, q: nat)
    requires Inv(t, db, Dirt([], [], []), f, q) && Copying(db.ca, src, db'.ca, db'.next)
    requires MovedDb(src, db, db') && MovedTrail(src, t, t')
    ensures Inv(t', db', Dirt([], [], []), Rekeyed(f, db'.ca), q)
  {
    hide ArenaOk, ArenaSound, ListsOk, Attached, Clean, RootSound, ReasonsOk, Propagated, MovedLists;
    var n := |t.assigns|;
    MovedArena(db.ca, src, db'.ca, db'.next, n, f);
    MovedScheme(db.ca, src, db'.ca, db'.next, db.long, db'.long, n, Long);
    MovedScheme(db.ca, src, db'.ca, db'.next, db.bin, db'.bin, n, Binary);
    MovedScheme(db.ca, src, db'.ca, db'.next, db.unary, db'.unary, n, Unary);
    MovedReasons(t, t', db.ca, src, db'.ca, db'.next, n, f);
    MovedPropagated(t, t', db.ca, src, db'.ca, db'.next, db.long, db'.long, q);
    MovedPropagated(t, t', db.ca, src, db'.ca, db'.next, db.bin, db'.bin, q);
    MovedPropagated(t, t', db.ca, src, db'.ca, db'.next, db.unary, db'.unary, q);
    MovedBounds(t, t', db'.ca, db'.next, src);
  }

  lemma MovedBounds(t: Trail, t': Trail, to: Arena, next: nat, src: Space)
    requires MovedTrail(src, t, t')
    ensures t'.assigns == t.assigns && t'.lits == t.lits && t'.lim == t.lim && Top(t') == Top(t)
  {
  }

  /** A clause list after the collection. */
  lemma CollectedNames(ca: Arena, src: Space, to: Arena, next: nat, crs: seq<nat>, crs': seq<nat>)
    requires Copying(ca, src, to, next) && MovedRefs(src, crs, crs')
    ensures SameNamed(ca, crs, to, crs')
  {
    forall i | 0 <= i < |crs| && crs[i] in ca
      ensures crs'[i] in to && to[crs'[i]].lits == ca[crs[i]].lits
    {
      assert Forwards(src, crs[i], crs'[i]);
    }
  }

  lemma CollectedList(ca: Arena, src: Space, to: Arena, next: nat, f: Problem, crs: seq<nat>, crs': seq<nat>, learnt: bool, imported: bool)
    requires Copying(ca, src, to, next) && ArenaSound(ca, f) && MovedRefs(src, crs, crs')
    requires ListedAs(f, crs, learnt, imported)
    ensures ListedAs(Rekeyed(f, to), crs', learnt, imported)
  {
    forall i | 0 <= i < |crs'|
      ensures StoredAs(Rekeyed(f, to), crs'[i], learnt, imported)
    {
      assert Forwards(src, crs[i], crs'[i]) && StoredAs(f, crs[i], learnt, imported);
      assert ContentOf(ca[crs[i]]) == f.store[crs[i]];
    }
    forall i, j | 0 <= i < j < |crs'|
      ensures crs'[i] != crs'[j]
    {
      assert Forwards(src, crs[i], crs'[i]) && Forwards(src, crs[j], crs'[j]);
    }
  }

  lemma CollectedComplete(t: Trail, t': Trail, ca: Arena, src: Space, to: Arena, next: nat, f: Problem, crs: seq<nat>, crs': seq<nat>)
    requires Copying(ca, src, to, next) && ArenaSound(ca, f) && MovedRefs(src, crs, crs') && MovedTrail(src, t, t')
    requires Complete(t, f, crs)
    ensures Complete(t', Rekeyed(f, to), crs')
  {
    var f' := Rekeyed(f, to);
    forall m: Model | SatListed(m, f', crs') && RootHolds(m, t')
      ensures SatAll(m, f'.clauses)
    {
      forall i | 0 <= i < |crs| && crs[i] in f.store
        ensures HoldsSome(m, f.store[crs[i]].lits)
      {
        assert Forwards(src, crs[i], crs'[i]);
        assert HoldsSome(m, f'.store[crs'[i]].lits);
        assert ContentOf(ca[crs[i]]) == f.store[crs[i]];
      }
      forall v: nat | t.Assigned(v) && v < |t.level| && t.level[v] == 0
        ensures Agrees(m, t, v)
      {
        assert t'.Assigned(v) && Agrees(m, t', v);
      }
      assert SatListed(m, f, crs) && RootHolds(m, t);
    }
  }

  lemma CollectedRecorded(t: Trail, t': Trail, ca: Arena, src: Space, to: Arena, next: nat, f: Problem,
                          clauses: seq<nat>, learnts: seq<nat>, imports: seq<nat>,
                          clauses': seq<nat>, learnts': seq<nat>, imports': seq<nat>)
    requires Copying(ca, src, to, next) && ArenaSound(ca, f) && MovedTrail(src, t, t')
    requires MovedRefs(src, clauses, clauses') && MovedRefs(src, learnts, learnts') && MovedRefs(src, imports, imports')
    requires Recorded(t, f, clauses, learnts, imports)
    ensures Recorded(t', Rekeyed(f, to), clauses', learnts', imports')
  {
    hide ListedAs, Complete, Copying, MovedRefs, MovedTrail, ArenaSound;
    CollectedList(ca, src, to, next, f, clauses, clauses', false, false);
    CollectedList(ca, src, to, next, f, learnts, learnts', true, false);
    CollectedList(ca, src, to, next, f, imports, imports', true, true);
    CollectedComplete(t, t', ca, src, to, next, f, clauses, clauses');
  }

  lemma CollectedAssumed(src: Space, t: Trail, t': Trail, assumptions: seq<Lit>)
    requires Assumed(t, assumptions) && MovedTrail(src, t, t')
    ensures Assumed(t', assumptions)
  {
    forall v: nat | AssumptionLevel(t', v, |assumptions|) && t'.reason[v].None?
      ensures t'.TrueLit(v) in assumptions
    {
      assert AssumptionLevel(t, v, |assumptions|) && MovedReason(src, t.reason[v], t'.reason[v]);
    }
  }

  /** No live clause is lost: it is watched, so its reference was forwarded. */
  lemma LiveSurvives(t: Trail, db: Db, db': Db, src: Space, f: Problem, q: nat, cr: nat)
    requires Inv(t, db, Dirt([], [], []), f, q) && Copying(db.ca, src, db'.ca, db'.next) && MovedDb(src, db, db')
    requires Live(db.ca, cr)
    ensures exists d :: Forwards(src, cr, d) && d in db'.ca && db'.ca[d] == db.ca[cr]
  {
    hide TrailOk, PropOk, Lazy, ArenaSound;
    var c := db.ca[cr];
    assert ClauseOk(c, |t.assigns|);
    var lists, lists' := if KindOf(c) == Long then db.long else if KindOf(c) == Binary then db.bin else db.unary,
                         if KindOf(c) == Long then db'.long else if KindOf(c) == Binary then db'.bin else db'.unary;
    assert AttachedAt(c, cr, lists, KindOf(c));
    MovedRef(src, lists, lists', c.lits[0].Neg());
    var d :| Forwards(src, cr, d);
    assert db'.ca[d] == db.ca[cr];
  }

  // ---------- steps of the collection ----------

  lemma FlagsFromArena(ca: Arena, n: nat)
    requires ArenaOk(ca, n)
    ensures FlagsOk(ca)
  {
    forall cr | cr in ca && ca[cr].oneWatched
      ensures ca[cr].learnt
    {
      assert ClauseOk(ca[cr], n);
    }
  }

  ghost predicate AllKnown(ca: Arena, lists: Lists, n: nat) {
    (forall p: Lit :: p in lists <==> p.v < n) && forall p :: p in lists ==> Known(ca, lists[p])
  }

  lemma ListsKnown(ca: Arena, lists: Lists, n: nat, kind: Kind)
    requires ListsOk(ca, lists, n, kind)
    ensures AllKnown(ca, lists, n)
  {
    forall p | p in lists
      ensures Known(ca, lists[p])
    {
      assert ListOk(ca, lists[p], p, kind);
      forall i | 0 <= i < |lists[p]|
        ensures lists[p][i].cref in ca
      {
        assert WatcherOk(ca, lists[p][i], p, kind);
      }
    }
  }

  lemma DbKnown(db: Db, n: nat, f: Problem)
    requires DbOk(db, n, f)
    ensures AllKnown(db.ca, db.long, n) && AllKnown(db.ca, db.bin, n) && AllKnown(db.ca, db.unary, n) && FlagsOk(db.ca)
  {
    hide AllKnown, FlagsOk, Attached, ArenaSound;
    ListsKnown(db.ca, db.long, n, Long);
    ListsKnown(db.ca, db.bin, n, Binary);
    ListsKnown(db.ca, db.unary, n, Unary);
    FlagsFromArena(db.ca, n);
  }

  /** Half of a variable is done: the lists of its positive literal are forwarded too. */
  ghost predicate MovedUpTo(src: Space, lists: Lists, lists': Lists, p: Lit) {
    && lists'.Keys == lists.Keys
    && forall r :: r in lists ==>
         if ToInt(r) < ToInt(p) then MovedWatchers(src, lists[r], lists'[r]) else lists'[r] == lists[r]
  }

  lemma MoveOneList(src: Space, src': Space, lists: Lists, lists': Lists, p: Lit, ws: seq<Watcher>)
    requires MovedUpTo(src, lists, lists', p) && p in lists && Later(src, src') && MovedWatchers(src', lists[p], ws)
    ensures MovedUpTo(src', lists, lists'[p := ws], ToLit(ToInt(p) + 1))
  {
    PackingRoundTrip(p, ToInt(p) + 1);
    var ls := lists'[p := ws];
    forall r | r in lists
      ensures if ToInt(r) < ToInt(p) + 1 then MovedWatchers(src', lists[r], ls[r]) else ls[r] == lists[r]
    {
      PackingRoundTrip(r, ToInt(r));
      if ToInt(r) < ToInt(p) {
        LaterWatchers(src, src', lists[r], lists'[r]);
      }
    }
  }

  lemma NoneMoved(src: Space, lists: Lists)
    ensures MovedUpTo(src, lists, lists, ToLit(0))
  {
    PackingRoundTrip(ToLit(0), 0);
  }

  lemma AllMoved(src: Space, lists: Lists, lists': Lists, n: nat)
    requires MovedUpTo(src, lists, lists', ToLit(2 * n)) && forall p: Lit :: p in lists <==> p.v < n
    ensures MovedLists(src, lists, lists')
  {
    PackingRoundTrip(ToLit(2 * n), 2 * n);
  }

  lemma LaterLists(src: Space, src': Space, lists: Lists, lists': Lists)
    requires MovedLists(src, lists, lists') && Later(src, src')
    ensures MovedLists(src', lists, lists')
  {
    forall p | p in lists
      ensures MovedWatchers(src', lists[p], lists'[p])
    {
      LaterWatchers(src, src', lists[p], lists'[p]);
    }
  }

  // ---------- reasons ----------

  /** The reasons of the first i trail entries are forwarded, the others are not. */
  ghost predicate MovedPrefix(src: Space, t: Trail, t': Trail, i: nat) {
    && t' == t.(reason := t'.reason) && |t'.reason| == |t.reason|
    && forall v: nat :: t.Assigned(v) && v < |t.reason| && v < |t.pos| ==>
         if t.pos[v] < i then MovedReason(src, t.reason[v], t'.reason[v]) else t'.reason[v] == t.reason[v]
  }

  lemma PrefixLater(src: Space, src': Space, t: Trail, t': Trail, i: nat)
    requires MovedPrefix(src, t, t', i) && Later(src, src')
    ensures MovedPrefix(src', t, t', i)
  {
    forall v: nat | t.Assigned(v) && v < |t.reason| && v < |t.pos| && t.pos[v] < i
      ensures MovedReason(src', t.reason[v], t'.reason[v])
    {
      assert MovedReason(src, t.reason[v], t'.reason[v]);
    }
  }

  /** The reason of a trail entry is a clause of the arena that is locked by it. */
  lemma ReasonLocked(t: Trail, t': Trail, ca: Arena, src: Space, to: Arena, next: nat, n: nat, i: nat)
    requires t.Wf(n) && ReasonsOk(t, ca) && ArenaOk(ca, n) && Copying(ca, src, to, next) && i < |t.lits|
    requires MovedPrefix(src, t, t', i) && t.reason[t.lits[i].v].Some?
    ensures t.lits[i].v < n && t'.reason[t.lits[i].v] == t.reason[t.lits[i].v] && t'.Sized(n)
    ensures var cr := t.reason[t.lits[i].v].value;
            && cr in src
            && (src[cr].Intact? ==> ClauseOk(src[cr].c, n) && Locked(t', src[cr].c, cr))
  {
    assert t.IsTrue(t.lits[i]);
    var v := t.lits[i].v;
    var cr := t.reason[v].value;
    assert ReasonOkAt(t, ca, v) && ReasonClause(t, ca, cr, v);
    assert ClauseOk(ca[cr], n) && t.TrueLit(v) == t.lits[i];
  }

  lemma PrefixStep(src: Space, t: Trail, t': Trail, n: nat, i: nat, d: nat)
    requires t.Wf(n) && i < |t.lits| && MovedPrefix(src, t, t', i) && t.reason[t.lits[i].v].Some?
    requires Forwards(src, t.reason[t.lits[i].v].value, d)
    ensures t.lits[i].v < n && MovedPrefix(src, t, t'.(reason := t'.reason[t.lits[i].v := Some(d)]), i + 1)
  {
    assert t.IsTrue(t.lits[i]);
    forall v: nat | t.Assigned(v) && t.pos[v] == i
      ensures v == t.lits[i].v
    {
      assert t.lits[t.pos[v]].v == v;
    }
  }

  lemma PrefixSkip(src: Space, t: Trail, t': Trail, n: nat, i: nat)
    requires t.Wf(n) && i < |t.lits| && MovedPrefix(src, t, t', i) && t.reason[t.lits[i].v].None?
    ensures t.lits[i].v < n && MovedPrefix(src, t, t', i + 1)
  {
    assert t.IsTrue(t.lits[i]);
    forall v: nat | t.Assigned(v) && t.pos[v] == i
      ensures v == t.lits[i].v
    {
      assert t.lits[t.pos[v]].v == v;
    }
  }

  lemma PrefixDone(src: Space, t: Trail, t': Trail, n: nat)
    requires t.Wf(n) && MovedPrefix(src, t, t', |t.lits|)
    ensures MovedTrail(src, t, t')
  {
    forall v: nat | t.Assigned(v) && v < |t.reason|
      ensures MovedReason(src, t.reason[v], t'.reason[v])
    {
      assert t.pos[v] < |t.lits|;
    }
  }

  lemma LaterTrail(src: Space, src': Space, t: Trail, t': Trail)
    requires MovedTrail(src, t, t') && Later(src, src')
    ensures MovedTrail(src', t, t')
  {
    forall v: nat | t.Assigned(v) && v < |t.reason|
      ensures MovedReason(src', t.reason[v], t'.reason[v])
    {
      assert MovedReason(src, t.reason[v], t'.reason[v]);
    }
  }

  lemma ListedKnown(ca: Arena, f: Problem, crs: seq<nat>, learnt: bool, imported: bool)
    requires ArenaSound(ca, f) && ListedAs(f, crs, learnt, imported)
    ensures forall i :: 0 <= i < |crs| ==> crs[i] in ca
  {
    forall i | 0 <= i < |crs|
      ensures crs[i] in ca
    {
      assert StoredAs(f, crs[i], learnt, imported);
    }
  }

  /** Everything is forwarded by src. */
  ghost predicate MovedAll(src: Space, t: Trail, t': Trail, db: Db, db': Db, crs: seq<nat>, crs': seq<nat>,
                           ls: seq<nat>, ls': seq<nat>, us: seq<nat>, us': seq<nat>) {
    && MovedDb(src, db, db') && MovedTrail(src, t, t')
    && MovedRefs(src, crs, crs') && MovedRefs(src, ls, ls') && MovedRefs(src, us, us')
  }

  /** Only reasons differ. */
  ghost predicate SameAssignment(t: Trail, u: Trail) {
    u == t.(reason := u.reason) && |u.reason| == |t.reason|
  }

  lemma SameAssignmentGrows(t: Trail, u: Trail, n: nat)
    requires t.Wf(n) && SameAssignment(t, u)
    ensures Grows(t, u) && u.assigns == t.assigns && u.lits == t.lits && u.lim == t.lim
  {
    forall i | 0 <= i < |t.lits|
      ensures SameLevel(t, u, t.lits[i].v)
    {
      assert t.IsTrue(t.lits[i]);
    }
  }

  lemma LaterDb(src: Space, src': Space, db: Db, db': Db)
    requires MovedDb(src, db, db') && Later(src, src')
    ensures MovedDb(src', db, db')
  {
    LaterLists(src, src', db.long, db'.long);
    LaterLists(src, src', db.bin, db'.bin);
    LaterLists(src, src', db.unary, db'.unary);
  }

  /** What the collected state satisfies. */
  lemma CollectedState(t: Trail, t': Trail, db: Db, db1: Db, src: Space, to: Arena, next: nat, f: Problem, q: nat,
                       crs: seq<nat>, crs': seq<nat>, ls: seq<nat>, ls': seq<nat>, us: seq<nat>, us': seq<nat>, assumptions: seq<Lit>)
    requires Inv(t, db, Dirt([], [], []), f, q) && Copying(db.ca, src, to, next)
    requires MovedAll(src, t, t', db, db1, crs, crs', ls, ls', us, us') && Recorded(t, f, crs, ls, us) && Assumed(t, assumptions)
    ensures Inv(t', db1.(ca := to, next := next), Dirt([], [], []), Rekeyed(f, to), q)
    ensures MovedDb(src, db, db1.(ca := to, next := next))
    ensures Recorded(t', Rekeyed(f, to), crs', ls', us') && Assumed(t', assumptions) && SameAssignment(t, t')
    ensures forall cr :: Live(db.ca, cr) ==> exists d :: Forwards(src, cr, d)
  {
    var db' := db1.(ca := to, next := next);
    assert MovedDb(src, db, db');
    hide Inv, Recorded, Assumed, MovedTrail, MovedRefs, MovedDb, Copying;
    CollectedInv(t, t', db, db', src, f, q);
    SoundArena(t, db, Dirt([], [], []), f, q);
    CollectedRecorded(t, t', db.ca, src, to, next, f, crs, ls, us, crs', ls', us');
    CollectedAssumed(src, t, t', assumptions);
    TrailShape(src, t, t');
    forall cr | Live(db.ca, cr)
      ensures exists d :: Forwards(src, cr, d)
    {
      LiveSurvives(t, db, db', src, f, q, cr);
    }
  }

  lemma SoundArena(t: Trail, db: Db, d: Dirt, f: Problem, q: nat)
    requires Inv(t, db, d, f, q)
    ensures ArenaSound(db.ca, f)
  {
  }

  lemma TrailShape(src: Space, t: Trail, t': Trail)
    requires MovedTrail(src, t, t')
    ensures SameAssignment(t, t')
  {
  }
}
