/** The clause arena and the watcher lists as values, and the invariants that connect
    them with each other and with the trail. */
module ClauseDb {
  import opened Wrappers
  import opened Cnf
  import opened TrailState

  /** A clause with the header fields that the invariants are about. deleted stands for mark 1;
      imported marks clauses received from another thread, the only ones that can be
      one-watched; unseen marks those whose watch had been propagated as false before they
      were attached. */
  datatype ClauseRec = ClauseRec(
    lits: seq<Lit>,
    learnt: bool,
    deleted: bool,
    oneWatched: bool,
    imported: bool,
    unseen: bool)

  type Arena = map<nat, ClauseRec>

  datatype Watcher = Watcher(cref: nat, blocker: Lit)

  type Lists = map<Lit, seq<Watcher>>

  /** The three watching schemes: two-watched, binary and one-watched clauses. */
  datatype Kind = Long | Binary | Unary

  function KindOf(c: ClauseRec): Kind {
    if c.oneWatched then Unary else if |c.lits| == 2 then Binary else Long
  }

  ghost predicate ClauseOk(c: ClauseRec, n: nat) {
    && |c.lits| >= 2 && DistinctVars(c.lits) && (c.oneWatched ==> c.imported && |c.lits| > 2) && (c.imported ==> c.learnt)
    && forall i :: 0 <= i < |c.lits| ==> c.lits[i].v < n
  }

  ghost predicate ArenaOk(ca: Arena, n: nat) {
    forall cr :: cr in ca ==> ClauseOk(ca[cr], n)
  }

  /** What a stored clause says, however its literals are arranged. */
  datatype Content = Content(lits: set<Lit>, learnt: bool, deleted: bool, imported: bool, unseen: bool)

  /** The clauses given to the solver so far, and the content of every stored clause. */
  datatype Problem = Problem(clauses: set<seq<Lit>>, store: map<nat, Content>)

  ghost function ContentOf(c: ClauseRec): Content {
    Content((set l | l in c.lits), c.learnt, c.deleted, c.imported, c.unseen)
  }

  /** The arena holds exactly the stored clauses. */
  ghost predicate Stored(ca: Arena, store: map<nat, Content>) {
    && ca.Keys == store.Keys
    && forall cr :: cr in ca ==> ContentOf(ca[cr]) == store[cr]
  }

  /** Every clause of the arena follows from the problem f. */
  ghost predicate ArenaSound(ca: Arena, f: Problem) {
    && Stored(ca, f.store)
    && forall cr :: cr in ca ==> Entails(f.clauses, ca[cr].lits)
  }

  ghost predicate Live(ca: Arena, cr: nat) {
    cr in ca && !ca[cr].deleted
  }

  // ---------- watcher lists ----------

  /** The clause c is watched by the list of p in the given scheme. */
  ghost predicate WatchedBy(c: ClauseRec, p: Lit, kind: Kind) {
    && KindOf(c) == kind && |c.lits| >= 2
    && (c.lits[0] == p.Neg() || (kind != Unary && c.lits[1] == p.Neg()))
  }

  ghost predicate WatcherOk(ca: Arena, w: Watcher, p: Lit, kind: Kind) {
    && w.cref in ca
    && (Live(ca, w.cref) ==>
          WatchedBy(ca[w.cref], p, kind) && w.blocker in ca[w.cref].lits && (kind == Unary || w.blocker != p.Neg()))
  }

  ghost predicate ListOk(ca: Arena, ws: seq<Watcher>, p: Lit, kind: Kind) {
    && (forall i :: 0 <= i < |ws| ==> WatcherOk(ca, ws[i], p, kind))
    && (forall i, j :: 0 <= i < j < |ws| ==> ws[i].cref != ws[j].cref)
  }

  ghost predicate ListsOk(ca: Arena, lists: Lists, n: nat, kind: Kind) {
    && (forall p: Lit :: p in lists <==> p.v < n)
    && (forall p: Lit :: p in lists ==> ListOk(ca, lists[p], p, kind))
  }

  ghost predicate HasRef(ws: seq<Watcher>, cr: nat) {
    exists i :: 0 <= i < |ws| && ws[i].cref == cr
  }

  ghost predicate RefIn(lists: Lists, p: Lit, cr: nat) {
    p in lists && HasRef(lists[p], cr)
  }

  /** The watches of the clause cr are where its scheme wants them. */
  ghost predicate AttachedAt(c: ClauseRec, cr: nat, lists: Lists, kind: Kind) {
    KindOf(c) == kind && |c.lits| >= 2 ==>
      RefIn(lists, c.lits[0].Neg(), cr) && (kind != Unary ==> RefIn(lists, c.lits[1].Neg(), cr))
  }

  ghost predicate Attached(ca: Arena, lists: Lists, kind: Kind) {
    forall cr :: Live(ca, cr) ==> AttachedAt(ca[cr], cr, lists, kind)
  }

  // ---------- reasons ----------

  /** c propagated x: its other literals were false before. */
  ghost predicate ReasonFor(t: Trail, c: seq<Lit>, x: Lit) {
    && |c| >= 2 && (c[0] == x || (|c| == 2 && c[1] == x))
    && forall k :: 0 <= k < |c| && c[k] != x ==> FalseBefore(t, c[k], x.v)
  }

  ghost predicate FalseBefore(t: Trail, l: Lit, v: nat) {
    t.IsFalse(l) && l.v < |t.pos| && v < |t.pos| && t.pos[l.v] < t.pos[v]
  }

  /** A propagated variable has a reason clause, which is live above level 0. Above level 0 a
      variable without one opened its level. */
  ghost predicate ReasonOkAt(t: Trail, ca: Arena, v: nat)
    requires v < |t.assigns| && t.Sized(|t.assigns|)
  {
    t.Assigned(v) ==>
      match t.reason[v]
      case None => t.level[v] > 0 ==> t.level[v] <= |t.lim| && t.pos[v] == t.lim[t.level[v] - 1]
      case Some(cr) => ReasonClause(t, ca, cr, v)
  }

  ghost predicate ReasonClause(t: Trail, ca: Arena, cr: nat, v: nat)
    requires v < |t.assigns| && t.Sized(|t.assigns|)
  {
    && cr in ca && !ca[cr].oneWatched && ReasonFor(t, ca[cr].lits, t.TrueLit(v))
    && (t.level[v] > 0 ==> Live(ca, cr))
  }

  ghost predicate ReasonsOk(t: Trail, ca: Arena)
    requires t.Sized(|t.assigns|)
  {
    forall v: nat :: v < |t.assigns| ==> ReasonOkAt(t, ca, v)
  }

  // ---------- propagation ----------

  /** Imported clauses with two watches are attached without regard to values. A one-watched clause
      is only left out if its watch had been propagated as false when it was attached. */
  predicate Exempt(c: ClauseRec) {
    if c.oneWatched then c.unseen else c.imported
  }

  /** The watcher w in the list of the true literal p needs no visit: its blocker is true at
      no higher level than p. */
  ghost predicate Settled(t: Trail, ca: Arena, w: Watcher, p: Lit) {
    Live(ca, w.cref) && !Exempt(ca[w.cref]) ==>
      && t.IsTrue(w.blocker) && w.blocker.v < |t.level| && p.v < |t.level|
      && t.level[w.blocker.v] <= t.level[p.v]
  }

  ghost predicate SettledList(t: Trail, ca: Arena, ws: seq<Watcher>, p: Lit) {
    forall i :: 0 <= i < |ws| ==> Settled(t, ca, ws[i], p)
  }

  ghost predicate Processed(t: Trail, p: Lit, q: nat) {
    t.IsTrue(p) && p.v < |t.pos| && t.pos[p.v] < q
  }

  /** The lists of the first q trail literals are settled. */
  ghost predicate Propagated(t: Trail, ca: Arena, lists: Lists, q: nat) {
    forall p: Lit :: p in lists && Processed(t, p, q) ==> SettledList(t, ca, lists[p], p)
  }

  // ---------- adding clauses ----------

  lemma AppendWatcher(ca: Arena, lists: Lists, n: nat, kind: Kind, p: Lit, w: Watcher)
    requires ListsOk(ca, lists, n, kind) && p in lists
    requires WatcherOk(ca, w, p, kind) && !HasRef(lists[p], w.cref)
    ensures ListsOk(ca, lists[p := lists[p] + [w]], n, kind)
    ensures RefIn(lists[p := lists[p] + [w]], p, w.cref)
    ensures forall r: Lit, cr :: RefIn(lists, r, cr) ==> RefIn(lists[p := lists[p] + [w]], r, cr)
    ensures forall r: Lit, cr :: RefIn(lists[p := lists[p] + [w]], r, cr) ==> RefIn(lists, r, cr) || (r == p && cr == w.cref)
  {
    var ls := lists[p := lists[p] + [w]];
    assert ListOk(ca, ls[p], p, kind) by {
      assert ListOk(ca, lists[p], p, kind);
    }
    forall r: Lit | r in ls
      ensures ListOk(ca, ls[r], r, kind)
    {
      if r != p {
        assert ListOk(ca, lists[r], r, kind);
      }
    }
    assert ls[p][|lists[p]|].cref == w.cref;
    forall r: Lit, cr | RefIn(lists, r, cr)
      ensures RefIn(ls, r, cr)
    {
      var i :| 0 <= i < |lists[r]| && lists[r][i].cref == cr;
      assert ls[r][i].cref == cr;
    }
    forall r: Lit, cr | RefIn(ls, r, cr)
      ensures RefIn(lists, r, cr) || (r == p && cr == w.cref)
    {
      var i :| 0 <= i < |ls[r]| && ls[r][i].cref == cr;
      if r == p && i < |lists[p]| {
        assert lists[p][i].cref == cr;
      }
    }
  }

  lemma AppendKeepsAttached(ca: Arena, lists: Lists, lists': Lists, kind: Kind)
    requires Attached(ca, lists, kind)
    requires forall r: Lit, cr :: RefIn(lists, r, cr) ==> RefIn(lists', r, cr)
    ensures Attached(ca, lists', kind)
  {
    forall cr | Live(ca, cr)
      ensures AttachedAt(ca[cr], cr, lists', kind)
    {
      assert AttachedAt(ca[cr], cr, lists, kind);
    }
  }

  /** Watchers only name clauses of the arena. */
  lemma RefsKnown(ca: Arena, lists: Lists, n: nat, kind: Kind, p: Lit, cr: nat)
    requires ListsOk(ca, lists, n, kind) && RefIn(lists, p, cr)
    ensures cr in ca && (Live(ca, cr) ==> WatchedBy(ca[cr], p, kind))
  {
    assert ListOk(ca, lists[p], p, kind);
    var i :| 0 <= i < |lists[p]| && lists[p][i].cref == cr;
    assert WatcherOk(ca, lists[p][i], p, kind);
  }

  /** A clause put at a fresh reference does not disturb the lists. */
  lemma FreshClause(ca: Arena, lists: Lists, n: nat, kind: Kind, cr: nat, c: ClauseRec)
    requires ListsOk(ca, lists, n, kind) && cr !in ca
    ensures ListsOk(ca[cr := c], lists, n, kind)
    ensures forall p: Lit :: !RefIn(lists, p, cr)
  {
    forall p: Lit
      ensures !RefIn(lists, p, cr)
    {
      if RefIn(lists, p, cr) {
        RefsKnown(ca, lists, n, kind, p, cr);
      }
    }
    forall p: Lit | p in lists
      ensures ListOk(ca[cr := c], lists[p], p, kind)
    {
      assert ListOk(ca, lists[p], p, kind);
      forall i | 0 <= i < |lists[p]|
        ensures WatcherOk(ca[cr := c], lists[p][i], p, kind)
      {
        assert WatcherOk(ca, lists[p][i], p, kind);
      }
    }
  }

  lemma FreshKeepsReasons(t: Trail, ca: Arena, cr: nat, c: ClauseRec)
    requires t.Sized(|t.assigns|) && ReasonsOk(t, ca) && cr !in ca
    ensures ReasonsOk(t, ca[cr := c])
  {
    var ca' := ca[cr := c];
    forall v: nat | v < |t.assigns|
      ensures ReasonOkAt(t, ca', v)
    {
      assert ReasonOkAt(t, ca, v);
    }
  }

  lemma FreshKeepsPropagated(t: Trail, ca: Arena, lists: Lists, n: nat, kind: Kind, q: nat, cr: nat, c: ClauseRec)
    requires ListsOk(ca, lists, n, kind) && Propagated(t, ca, lists, q) && cr !in ca
    ensures Propagated(t, ca[cr := c], lists, q)
  {
    FreshClause(ca, lists, n, kind, cr, c);
    forall p: Lit | p in lists && Processed(t, p, q)
      ensures SettledList(t, ca[cr := c], lists[p], p)
    {
      forall i | 0 <= i < |lists[p]|
        ensures Settled(t, ca[cr := c], lists[p][i], p)
      {
        assert Settled(t, ca, lists[p][i], p);
        assert HasRef(lists[p], lists[p][i].cref);
        assert !RefIn(lists, p, cr);
      }
    }
  }

  /** A watcher added to the list of p: either p is not processed or the watcher is settled. */
  lemma AppendKeepsPropagated(t: Trail, ca: Arena, lists: Lists, q: nat, p: Lit, w: Watcher)
    requires Propagated(t, ca, lists, q) && p in lists
    requires Processed(t, p, q) ==> Settled(t, ca, w, p)
    ensures Propagated(t, ca, lists[p := lists[p] + [w]], q)
  {
    var ls := lists[p := lists[p] + [w]];
    forall r: Lit | r in ls && Processed(t, r, q)
      ensures SettledList(t, ca, ls[r], r)
    {
      assert SettledList(t, ca, lists[r], r);
    }
  }
}
