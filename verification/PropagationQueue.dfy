/** Between two trail literals: cleaning the lists, and starting and finishing the visit
    of one literal. */
module PropagationQueue {
  import opened Cnf
  import opened TrailState
  import opened ClauseDb
  import opened Cuts
  import opened Invariants
  import opened Propagation
  import opened Visits
  import opened Purgatory

  /** Where the current decision level starts on the trail. */
  function Top(t: Trail): nat {
    if t.lim == [] then 0 else t.lim[|t.lim| - 1]
  }

  // ---------- lazy deletion ----------

  /** The watchers of live clauses, in order. */
  function LiveOnly(ca: Arena, ws: seq<Watcher>): (r: seq<Watcher>)
    requires forall i :: 0 <= i < |ws| ==> ws[i].cref in ca
  {
    if ws == [] then []
    else if ca[ws[|ws| - 1].cref].deleted then LiveOnly(ca, ws[..|ws| - 1])
    else LiveOnly(ca, ws[..|ws| - 1]) + [ws[|ws| - 1]]
  }

  lemma {:induction false} LiveOnlyExact(ca: Arena, ws: seq<Watcher>, w: Watcher)
    requires forall i :: 0 <= i < |ws| ==> ws[i].cref in ca
    ensures w in LiveOnly(ca, ws) <==> w in ws && !ca[w.cref].deleted
  {
    if ws != [] {
      var last := |ws| - 1;
      LiveOnlyExact(ca, ws[..last], w);
      assert w in ws <==> w in ws[..last] || w == ws[last];
    }
  }

  lemma {:induction false} LiveOnlyDistinct(ca: Arena, ws: seq<Watcher>)
    requires forall i :: 0 <= i < |ws| ==> ws[i].cref in ca
    requires forall i, j :: 0 <= i < j < |ws| ==> ws[i].cref != ws[j].cref
    ensures var r := LiveOnly(ca, ws);
            forall i, j :: 0 <= i < j < |r| ==> r[i].cref != r[j].cref
  {
    if ws != [] {
      var last := |ws| - 1;
      LiveOnlyDistinct(ca, ws[..last]);
      var r := LiveOnly(ca, ws[..last]);
      forall i | 0 <= i < |r|
        ensures r[i].cref != ws[last].cref
      {
        LiveOnlyExact(ca, ws[..last], r[i]);
      }
    }
  }

  lemma CleanedList(ca: Arena, ws: seq<Watcher>, p: Lit, kind: Kind)
    requires ListOk(ca, ws, p, kind)
    ensures forall i :: 0 <= i < |ws| ==> ws[i].cref in ca
    ensures ListOk(ca, LiveOnly(ca, ws), p, kind)
    ensures forall cr :: HasRef(LiveOnly(ca, ws), cr) <==> HasRef(ws, cr) && Live(ca, cr)
  {
    forall i | 0 <= i < |ws|
      ensures ws[i].cref in ca
    {
      assert WatcherOk(ca, ws[i], p, kind);
    }
    var r := LiveOnly(ca, ws);
    LiveOnlyDistinct(ca, ws);
    forall i | 0 <= i < |r|
      ensures WatcherOk(ca, r[i], p, kind)
    {
      LiveOnlyExact(ca, ws, r[i]);
    }
    forall cr
      ensures HasRef(r, cr) <==> HasRef(ws, cr) && Live(ca, cr)
    {
      if HasRef(r, cr) {
        var i :| 0 <= i < |r| && r[i].cref == cr;
        LiveOnlyExact(ca, ws, r[i]);
      }
      if HasRef(ws, cr) && Live(ca, cr) {
        var i :| 0 <= i < |ws| && ws[i].cref == cr;
        LiveOnlyExact(ca, ws, ws[i]);
      }
    }
  }

  /** Cleaning one list keeps the live part of the watch structure. */
  lemma CleanedLists(ca: Arena, lists: Lists, n: nat, kind: Kind, p: Lit, rest: seq<Lit>)
    requires ListsOk(ca, lists, n, kind) && Attached(ca, lists, kind) && p in lists
    requires Clean(ca, lists, [p] + rest)
    ensures forall i :: 0 <= i < |lists[p]| ==> lists[p][i].cref in ca
    ensures var lists' := lists[p := LiveOnly(ca, lists[p])];
            ListsOk(ca, lists', n, kind) && Attached(ca, lists', kind) && Clean(ca, lists', rest)
  {
    assert ListOk(ca, lists[p], p, kind);
    CleanedList(ca, lists[p], p, kind);
    var lists' := lists[p := LiveOnly(ca, lists[p])];
    forall r: Lit | r in lists'
      ensures ListOk(ca, lists'[r], r, kind)
    {
      if r != p {
        assert ListOk(ca, lists[r], r, kind);
      }
    }
    forall cr | Live(ca, cr)
      ensures AttachedAt(ca[cr], cr, lists', kind)
    {
      assert AttachedAt(ca[cr], cr, lists, kind);
    }
    forall r: Lit, cr | RefIn(lists', r, cr) && r !in rest
      ensures Live(ca, cr)
    {
      if r != p {
        assert RefIn(lists, r, cr) && r !in [p] + rest;
      }
    }
  }

  lemma CleanedPropagated(t: Trail, ca: Arena, lists: Lists, n: nat, kind: Kind, p: Lit, q: nat)
    requires ListsOk(ca, lists, n, kind) && p in lists && Propagated(t, ca, lists, q)
    ensures forall i :: 0 <= i < |lists[p]| ==> lists[p][i].cref in ca
    ensures Propagated(t, ca, lists[p := LiveOnly(ca, lists[p])], q)
  {
    assert ListOk(ca, lists[p], p, kind);
    CleanedList(ca, lists[p], p, kind);
    var r := LiveOnly(ca, lists[p]);
    if Processed(t, p, q) {
      forall i | 0 <= i < |r|
        ensures Settled(t, ca, r[i], p)
      {
        LiveOnlyExact(ca, lists[p], r[i]);
        assert SettledList(t, ca, lists[p], p);
      }
    }
    var lists' := lists[p := r];
    forall s: Lit | s in lists' && Processed(t, s, q)
      ensures SettledList(t, ca, lists'[s], s)
    {
      if s != p {
        assert SettledList(t, ca, lists[s], s);
      }
    }
  }

  // ---------- one literal of the queue ----------

  lemma QueueLiteral(t: Trail, n: nat, q: nat)
    requires t.Wf(n) && Top(t) <= q < |t.lits|
    ensures t.lits[q].v < n && Current(t, t.lits[q], q)
  {
    assert t.IsTrue(t.lits[q]);
    assert t.Levelled(t.lits[q].v);
  }

  lemma StartLong(t: Trail, db: Db, f: Problem, p: Lit, q: nat)
    requires p in db.bin && BinaryLoop(t, db, |t.assigns|, f, p, q, db.bin[p])
    ensures p in db.long && LongAt(t, db, f, p, q, 0, 0)
  {
    hide Attached, ListOk, ArenaOk, ArenaSound, Clean, RootSound, ReasonsOk, PropOk;
    assert p in db.long;
    assert db.long[p][..0] == [] && db.long[p][0..] == db.long[p];
    assert db.long[p][..0] + db.long[p][0..] == db.long[p];
    assert Logical(db.long, p, 0, 0) == db.long;
  }

  lemma NothingSettled(t: Trail, ca: Arena, p: Lit)
    ensures SettledList(t, ca, [], p)
  {
  }

  lemma FinishLong(t: Trail, db: Db, f: Problem, p: Lit, q: nat)
    requires p in db.long && LongLoop(t, db, |t.assigns|, f, p, q, db.long[p], [])
    ensures p in db.unary && UnaryAt(t, db, f, p, q, 0, 0)
  {
    hide Attached, ListOk, ArenaOk, ArenaSound, Clean, RootSound, ReasonsOk, Propagated, SettledList;
    NothingSettled(t, db.ca, p);
    NextPropagated(t, db.ca, |t.assigns|, db.long, p, q);
    NextPropagated(t, db.ca, |t.assigns|, db.bin, p, q);
    assert p in db.unary;
    assert db.unary[p][..0] == [] && db.unary[p][0..] == db.unary[p];
    assert db.unary[p][..0] + db.unary[p][0..] == db.unary[p];
    assert Logical(db.unary, p, 0, 0) == db.unary;
  }

  lemma Weaken(t: Trail, db: Db, q: nat, q': nat)
    requires PropOk(t, db, q) && q' <= q
    ensures PropOk(t, db, q')
  {
    WeakenLists(t, db.ca, db.long, q, q');
    WeakenLists(t, db.ca, db.bin, q, q');
    WeakenLists(t, db.ca, db.unary, q, q');
  }

  lemma WeakenLists(t: Trail, ca: Arena, lists: Lists, q: nat, q': nat)
    requires Propagated(t, ca, lists, q) && q' <= q
    ensures Propagated(t, ca, lists, q')
  {
    forall r: Lit | r in lists && Processed(t, r, q')
      ensures SettledList(t, ca, lists[r], r)
    {
      assert Processed(t, r, q);
    }
  }

  // ---------- what complete propagation means ----------

  /** No literal is left to derive from c: it has a true literal or two unassigned ones. */
  ghost predicate Stable(t: Trail, c: seq<Lit>) {
    || (exists i :: 0 <= i < |c| && t.IsTrue(c[i]))
    || (exists i, j :: 0 <= i < j < |c| && t.IsUndef(c[i]) && t.IsUndef(c[j]))
  }

  /** When the queue is empty no clause of the two-watched and binary schemes is falsified
      or unit, imported clauses apart. */
  lemma PropagationComplete(t: Trail, db: Db, n: nat, f: Problem, cr: nat)
    requires DbOk(db, n, f) && TrailOk(t, db.ca, n, f) && PropOk(t, db, |t.lits|)
    requires Live(db.ca, cr) && !db.ca[cr].imported
    ensures Stable(t, db.ca[cr].lits)
  {
    hide ArenaSound, RootSound, ReasonsOk;
    assert ClauseOk(db.ca[cr], n);
    var c := db.ca[cr].lits;
    if KindOf(db.ca[cr]) == Binary {
      WatchStable(t, db.ca, db.bin, n, Binary, cr, 0);
      WatchStable(t, db.ca, db.bin, n, Binary, cr, 1);
    } else {
      WatchStable(t, db.ca, db.long, n, Long, cr, 0);
      WatchStable(t, db.ca, db.long, n, Long, cr, 1);
    }
    if !t.IsTrue(c[0]) && !t.IsFalse(c[0]) && !t.IsTrue(c[1]) && !t.IsFalse(c[1]) {
      assert t.IsUndef(c[0]) && t.IsUndef(c[1]);
    }
  }

  /** A false watch has a true blocker. */
  lemma WatchStable(t: Trail, ca: Arena, lists: Lists, n: nat, kind: Kind, cr: nat, k: nat)
    requires t.Wf(n) && ListsOk(ca, lists, n, kind) && Attached(ca, lists, kind) && Propagated(t, ca, lists, |t.lits|)
    requires Live(ca, cr) && !ca[cr].imported && ClauseOk(ca[cr], n) && KindOf(ca[cr]) == kind && kind != Unary && k < 2
    ensures t.IsFalse(ca[cr].lits[k]) ==> exists i :: 0 <= i < |ca[cr].lits| && t.IsTrue(ca[cr].lits[i])
  {
    var c := ca[cr].lits;
    if t.IsFalse(c[k]) {
      var p := c[k].Neg();
      assert AttachedAt(ca[cr], cr, lists, kind);
      assert RefIn(lists, p, cr);
      var i :| 0 <= i < |lists[p]| && lists[p][i].cref == cr;
      assert t.IsTrue(p);
      assert Processed(t, p, |t.lits|);
      assert SettledList(t, ca, lists[p], p);
      assert Settled(t, ca, lists[p][i], p);
      assert ListOk(ca, lists[p], p, kind);
      assert WatcherOk(ca, lists[p][i], p, kind);
    }
  }

  // ---------- the cleaning loops ----------

  /** OccLists::clean: compacts a list in place, dropping the watchers of deleted clauses. */
  method CleanList(ca: Arena, ws: seq<Watcher>) returns (r: seq<Watcher>)
    requires forall i :: 0 <= i < |ws| ==> ws[i].cref in ca
    ensures r == LiveOnly(ca, ws)
  {
    r := ws;
    var j := 0;
    for i := 0 to |ws|
      invariant j <= i && |r| == |ws| && r[i..] == ws[i..] && r[..j] == LiveOnly(ca, ws[..i])
    {
      assert ws[..i + 1][..i] == ws[..i];
      assert r[i] == r[i..][0] == ws[i];
      if !ca[r[i].cref].deleted {
        r := r[j := r[i]];
        j := j + 1;
      }
    }
    assert ws[..|ws|] == ws;
    r := r[..j];
  }

  ghost predicate SchemeOk(t: Trail, ca: Arena, lists: Lists, n: nat, kind: Kind, q: nat) {
    ListsOk(ca, lists, n, kind) && Attached(ca, lists, kind) && Propagated(t, ca, lists, q)
  }

  /** OccLists::cleanAll for one scheme. */
  method CleanAllLists(ca: Arena, lists: Lists, dirties: seq<Lit>, kind: Kind, ghost n: nat, ghost t: Trail, ghost q: nat)
    returns (r: Lists)
    requires SchemeOk(t, ca, lists, n, kind, q) && Clean(ca, lists, dirties)
    requires forall i :: 0 <= i < |dirties| ==> dirties[i].v < n
    ensures SchemeOk(t, ca, r, n, kind, q) && Clean(ca, r, [])
  {
    hide Attached, ListOk, Propagated, Clean;
    r := lists;
    assert dirties[0..] == dirties;
    for i := 0 to |dirties|
      invariant ListsOk(ca, r, n, kind) && Attached(ca, r, kind) && Clean(ca, r, dirties[i..])
      invariant Propagated(t, ca, r, q)
    {
      assert dirties[i..] == [dirties[i]] + dirties[i + 1..];
      CleanedLists(ca, r, n, kind, dirties[i], dirties[i + 1..]);
      CleanedPropagated(t, ca, r, n, kind, dirties[i], q);
      var ws := CleanList(ca, r[dirties[i]]);
      r := r[dirties[i] := ws];
    }
    assert dirties[|dirties|..] == [];
  }

  /** The dirty lists of the three schemes. */
  datatype Dirt = Dirt(long: seq<Lit>, bin: seq<Lit>, unary: seq<Lit>)

  ghost predicate DirtOk(d: Dirt, n: nat) {
    && (forall i :: 0 <= i < |d.long| ==> d.long[i].v < n)
    && (forall i :: 0 <= i < |d.bin| ==> d.bin[i].v < n)
    && (forall i :: 0 <= i < |d.unary| ==> d.unary[i].v < n)
  }

  /** Only smudged lists may name deleted clauses. */
  ghost predicate Lazy(db: Db, d: Dirt) {
    Clean(db.ca, db.long, d.long) && Clean(db.ca, db.bin, d.bin) && Clean(db.ca, db.unary, d.unary)
  }

  /** The engine invariant while some lists are dirty and q trail literals are propagated. */
  ghost predicate Inv(t: Trail, db: Db, d: Dirt, f: Problem, q: nat) {
    && DbOk(db, |t.assigns|, f) && TrailOk(t, db.ca, |t.assigns|, f) && PropOk(t, db, q)
    && Lazy(db, d) && DirtOk(d, |t.assigns|) && Top(t) <= q <= |t.lits|
  }

  lemma SchemesOk(t: Trail, db: Db, d: Dirt, f: Problem, q: nat)
    requires Inv(t, db, d, f, q)
    ensures SchemeOk(t, db.ca, db.long, |t.assigns|, Long, q) && Clean(db.ca, db.long, d.long)
    ensures SchemeOk(t, db.ca, db.bin, |t.assigns|, Binary, q) && Clean(db.ca, db.bin, d.bin)
    ensures SchemeOk(t, db.ca, db.unary, |t.assigns|, Unary, q) && Clean(db.ca, db.unary, d.unary)
    ensures DirtOk(d, |t.assigns|)
  {
    hide ListsOk, Attached, ArenaSound, ArenaOk, RootSound, ReasonsOk, Clean, Propagated;
  }

  lemma CleanedInv(t: Trail, db: Db, d: Dirt, f: Problem, q: nat, long: Lists, bin: Lists, unary: Lists)
    requires Inv(t, db, d, f, q)
    requires SchemeOk(t, db.ca, long, |t.assigns|, Long, q) && Clean(db.ca, long, [])
    requires SchemeOk(t, db.ca, bin, |t.assigns|, Binary, q) && Clean(db.ca, bin, [])
    requires SchemeOk(t, db.ca, unary, |t.assigns|, Unary, q) && Clean(db.ca, unary, [])
    ensures var db' := db.(long := long, bin := bin, unary := unary);
            Inv(t, db', Dirt([], [], []), f, q) && BaseOk(t, db', |t.assigns|, f)
  {
    hide ListsOk, Attached, ArenaSound, ArenaOk, RootSound, ReasonsOk, Clean, Propagated;
  }

  /** The visit of the literal at position q starts with its binary list. */
  lemma StartLiteral(t: Trail, db: Db, f: Problem, q: nat)
    requires BaseOk(t, db, |t.assigns|, f) && PropOk(t, db, q) && Top(t) <= q < |t.lits|
    ensures t.lits[q] in db.bin && BinaryLoop(t, db, |t.assigns|, f, t.lits[q], q, [])
    ensures t.Wf(|t.assigns|)
  {
    hide Attached, ListOk, ArenaOk, ArenaSound, Clean, RootSound, ReasonsOk, PropOk;
    QueueLiteral(t, |t.assigns|, q);
  }

  lemma ExtendsTop(t: Trail, u: Trail)
    requires Extends(t, u)
    ensures Top(u) == Top(t) && |t.lits| <= |u.lits| && |u.assigns| == |t.assigns|
  {
  }

  lemma InvFromBase(t: Trail, db: Db, f: Problem, q: nat)
    requires BaseOk(t, db, |t.assigns|, f) && PropOk(t, db, q) && Top(t) <= q <= |t.lits|
    ensures Inv(t, db, Dirt([], [], []), f, q)
  {
    hide DbOk, TrailOk, PropOk;
  }

  ghost predicate AllStable(t: Trail, ca: Arena) {
    forall cr :: Live(ca, cr) && !ca[cr].imported ==> Stable(t, ca[cr].lits)
  }

  /** No one-watched clause is false, unless its watch had been propagated when it was attached. */
  ghost predicate NoneMissed(t: Trail, ca: Arena) {
    forall cr :: Live(ca, cr) && ca[cr].oneWatched && !ca[cr].unseen ==> !AllFalse(t, ca[cr].lits)
  }

  lemma OneWatchedSeen(t: Trail, db: Db, n: nat, f: Problem)
    requires DbOk(db, n, f) && TrailOk(t, db.ca, n, f) && PropOk(t, db, |t.lits|)
    ensures NoneMissed(t, db.ca)
  {
    hide ArenaSound, RootSound, ReasonsOk;
    forall cr | Live(db.ca, cr) && db.ca[cr].oneWatched && !db.ca[cr].unseen
      ensures !AllFalse(t, db.ca[cr].lits)
    {
      assert ClauseOk(db.ca[cr], n) && AttachedAt(db.ca[cr], cr, db.unary, Unary);
      WatchSeen(t, db.ca, db.unary, n, cr);
    }
  }

  lemma WatchSeen(t: Trail, ca: Arena, lists: Lists, n: nat, cr: nat)
    requires t.Wf(n) && ListsOk(ca, lists, n, Unary) && Propagated(t, ca, lists, |t.lits|)
    requires Live(ca, cr) && ca[cr].oneWatched && !ca[cr].unseen && ClauseOk(ca[cr], n) && RefIn(lists, ca[cr].lits[0].Neg(), cr)
    ensures !AllFalse(t, ca[cr].lits)
  {
    var c := ca[cr].lits;
    var p := c[0].Neg();
    if t.IsFalse(c[0]) {
      var i :| 0 <= i < |lists[p]| && lists[p][i].cref == cr;
      assert t.IsTrue(p) && Processed(t, p, |t.lits|);
      assert SettledList(t, ca, lists[p], p) && Settled(t, ca, lists[p][i], p);
      assert ListOk(ca, lists[p], p, Unary) && WatcherOk(ca, lists[p][i], p, Unary);
      var k :| 0 <= k < |c| && c[k] == lists[p][i].blocker;
      assert t.IsTrue(c[k]);
    }
  }

  lemma QueueEmpty(t: Trail, db: Db, d: Dirt, f: Problem)
    requires Inv(t, db, d, f, |t.lits|)
    ensures AllStable(t, db.ca) && NoneMissed(t, db.ca)
  {
    hide DbOk, TrailOk, PropOk, Stable, Lazy, NoneMissed;
    OneWatchedSeen(t, db, |t.assigns|, f);
    forall cr | Live(db.ca, cr) && !db.ca[cr].imported
      ensures Stable(t, db.ca[cr].lits)
    {
      PropagationComplete(t, db, |t.assigns|, f, cr);
    }
  }
}
