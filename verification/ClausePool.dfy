/** The pool through which the workers of Plingeling exchange clauses. */
module ClausePool {
  import opened Wrappers

  /** A clause as it was produced, and as the pool keeps it. */
  datatype Clause = Clause(wid: nat, lits: seq<int>, glue: int)

  datatype Cls = Cls(clause: Clause, count: nat)

  // ---------- counting ----------

  /** The number of workers whose cursor is past entry k. */
  function Past(cursor: seq<nat>, k: int): nat {
    if cursor == [] then 0 else Past(cursor[..|cursor| - 1], k) + if cursor[|cursor| - 1] > k then 1 else 0
  }

  lemma {:induction false} PastUpdate(cursor: seq<nat>, k: int, i: nat, c: nat)
    requires i < |cursor|
    ensures Past(cursor[i := c], k) == Past(cursor, k) - (if cursor[i] > k then 1 else 0) + (if c > k then 1 else 0)
    decreases |cursor|
  {
    var last := |cursor| - 1;
    if i < last {
      PastUpdate(cursor[..last], k, i, c);
      assert cursor[i := c][..last] == cursor[..last][i := c];
    } else {
      assert cursor[i := c][..last] == cursor[..last];
    }
  }

  lemma {:induction false} PastMonotone(cursor: seq<nat>, j: int, k: int)
    requires j <= k
    ensures Past(cursor, k) <= Past(cursor, j)
  {
    if cursor != [] {
      PastMonotone(cursor[..|cursor| - 1], j, k);
    }
  }

  /** A worker between two entries separates their counts. */
  lemma {:induction false} PastStrict(cursor: seq<nat>, j: int, k: int, i: nat)
    requires i < |cursor| && j < cursor[i] <= k
    ensures Past(cursor, k) < Past(cursor, j)
    decreases |cursor|
  {
    if i < |cursor| - 1 {
      PastStrict(cursor[..|cursor| - 1], j, k, i);
    } else {
      PastMonotone(cursor[..|cursor| - 1], j, k);
    }
  }

  lemma {:induction false} NobodyPast(cursor: seq<nat>, k: int)
    requires forall i :: 0 <= i < |cursor| ==> cursor[i] <= k
    ensures Past(cursor, k) == 0
  {
    if cursor != [] {
      NobodyPast(cursor[..|cursor| - 1], k);
    }
  }

  lemma {:induction false} EverybodyPast(cursor: seq<nat>, k: int)
    requires Past(cursor, k) >= |cursor|
    ensures forall i :: 0 <= i < |cursor| ==> cursor[i] > k
  {
    if cursor != [] {
      PastAtMost(cursor[..|cursor| - 1], k);
      EverybodyPast(cursor[..|cursor| - 1], k);
    }
  }

  lemma {:induction false} PastAtMost(cursor: seq<nat>, k: int)
    ensures Past(cursor, k) <= |cursor|
  {
    if cursor != [] {
      PastAtMost(cursor[..|cursor| - 1], k);
    }
  }

  /** Cursors after the first k entries have gone. */
  function Shifted(cursor: seq<nat>, k: nat): (r: seq<nat>)
    ensures |r| == |cursor|
  {
    seq(|cursor|, i requires 0 <= i < |cursor| => if k < cursor[i] then cursor[i] - k else 0)
  }

  lemma {:induction false} PastShifted(cursor: seq<nat>, k: nat, l: int)
    requires l >= k
    ensures Past(Shifted(cursor, k), l - k) == Past(cursor, l)
  {
    if cursor != [] {
      PastShifted(cursor[..|cursor| - 1], k, l);
      assert Shifted(cursor, k)[..|cursor| - 1] == Shifted(cursor[..|cursor| - 1], k);
    }
  }

  // ---------- the pool ----------

  /** An entry stays until `limit` workers have passed it. */
  ghost predicate EntryOk(e: Option<Cls>, past: nat, limit: int) {
    e.Some? && e.value.count == past && (past == 0 || past < limit)
  }

  /** Removed entries are a prefix, each passed by `limit` workers; the others know how many workers
      have passed them. */
  ghost predicate PoolOk(start: seq<Option<Cls>>, first: nat, cursor: seq<nat>, limit: int) {
    && first <= |start|
    && (forall k :: 0 <= k < first ==> start[k] == None && Past(cursor, k) >= limit)
    && (forall k :: first <= k < |start| ==> EntryOk(start[k], Past(cursor, k), limit))
    && (forall i :: 0 <= i < |cursor| ==> cursor[i] <= |start|)
  }

  /** The entries are the last ones that were produced. */
  ghost predicate Recent(start: seq<Option<Cls>>, collected: nat, produced: seq<Clause>) {
    && |produced| == collected + |start|
    && forall k :: 0 <= k < |start| && start[k].Some? ==> start[k].value.clause == At(produced, collected, k)
  }

  function At(produced: seq<Clause>, collected: nat, k: nat): Clause
    requires collected + k < |produced|
  {
    produced[collected + k]
  }

  /** Every worker got clauses of others, each at most once and in the order of production. */
  ghost predicate InOrder(delivered: seq<nat>, wid: nat, produced: seq<Clause>, position: nat) {
    && (forall a, b :: 0 <= a < b < |delivered| ==> delivered[a] < delivered[b])
    && (forall a :: 0 <= a < |delivered| ==> delivered[a] < position && delivered[a] < |produced| && produced[delivered[a]].wid != wid)
  }

  /** A new entry behind the others. */
  lemma ProduceKeeps(start: seq<Option<Cls>>, first: nat, cursor: seq<nat>, limit: int, collected: nat, produced: seq<Clause>, c: Clause)
    requires PoolOk(start, first, cursor, limit) && Recent(start, collected, produced)
    ensures PoolOk(start + [Some(Cls(c, 0))], first, cursor, limit)
    ensures Recent(start + [Some(Cls(c, 0))], collected, produced + [c])
  {
    NobodyPast(cursor, |start|);
  }

  /** The entries after worker i has passed entry k, which is still there. */
  function Passed(start: seq<Option<Cls>>, k: nat, limit: int): seq<Option<Cls>>
    requires k < |start| && start[k].Some?
  {
    var count := start[k].value.count + 1;
    start[k := if count >= limit then None else Some(start[k].value.(count := count))]
  }

  /** Only the first entry can be complete. */
  lemma PassKeeps(start: seq<Option<Cls>>, first: nat, cursor: seq<nat>, limit: int, i: nat)
    requires PoolOk(start, first, cursor, limit) && i < |cursor| && cursor[i] < |start| && start[cursor[i]].Some?
    ensures var k := cursor[i];
            var gone := start[k].value.count + 1 >= limit;
            && first <= k && (gone ==> k == first)
            && PoolOk(Passed(start, k, limit), if gone then first + 1 else first, cursor[i := k + 1], limit)
  {
    var k := cursor[i];
    assert EntryOk(start[k], Past(cursor, k), limit);
    if start[k].value.count + 1 >= limit && first < k {
      assert EntryOk(start[first], Past(cursor, first), limit);
      PastStrict(cursor, first, k, i);
      assert false;
    }
    forall l | 0 <= l < |start|
      ensures Past(cursor[i := k + 1], l) == Past(cursor, l) + if l == k then 1 else 0
    {
      PastUpdate(cursor, l, i, k + 1);
    }
    forall l | first <= l < |start| && l != k
      ensures EntryOk(start[l], Past(cursor[i := k + 1], l), limit)
    {
      assert EntryOk(start[l], Past(cursor, l), limit);
    }
  }

  /** Passing over an entry that is gone. */
  lemma SkipKeeps(start: seq<Option<Cls>>, first: nat, cursor: seq<nat>, limit: int, i: nat)
    requires PoolOk(start, first, cursor, limit) && i < |cursor| && cursor[i] < |start| && start[cursor[i]] == None
    ensures cursor[i] < first && PoolOk(start, first, cursor[i := cursor[i] + 1], limit)
  {
    assert cursor[i] >= first ==> EntryOk(start[cursor[i]], Past(cursor, cursor[i]), limit);
    forall l | first <= l < |start|
      ensures EntryOk(start[l], Past(cursor[i := cursor[i] + 1], l), limit)
    {
      assert EntryOk(start[l], Past(cursor, l), limit);
      PastUpdate(cursor, l, i, cursor[i] + 1);
    }
    var cursor' := cursor[i := cursor[i] + 1];
    forall l | 0 <= l < first
      ensures Past(cursor', l) >= limit
    {
      PastUpdate(cursor, l, i, cursor[i] + 1);
    }
  }

  /** An entry that waits for all workers is there until the last one comes. */
  lemma StaysForAll(start: seq<Option<Cls>>, first: nat, cursor: seq<nat>, limit: int, i: nat)
    requires PoolOk(start, first, cursor, limit) && limit >= |cursor| && i < |cursor| && cursor[i] < |start|
    ensures start[cursor[i]].Some?
  {
    if cursor[i] < first {
      EverybodyPast(cursor, cursor[i]);
      assert false;
    }
    assert EntryOk(start[cursor[i]], Past(cursor, cursor[i]), limit);
  }

  /** Collecting the first k entries keeps every worker at its next clause. */
  lemma CollectKeeps(start: seq<Option<Cls>>, first: nat, cursor: seq<nat>, limit: int, collected: nat, produced: seq<Clause>, k: nat)
    requires PoolOk(start, first, cursor, limit) && Recent(start, collected, produced) && first <= k <= |start|
    ensures PoolOk(start[k..], 0, Shifted(cursor, k), limit) && Recent(start[k..], collected + k, produced)
    ensures forall i :: 0 <= i < |cursor| ==>
              collected + k + Shifted(cursor, k)[i] == if k < cursor[i] then collected + cursor[i] else collected + k
  {
    forall l | 0 <= l < |start| - k
      ensures EntryOk(start[k..][l], Past(Shifted(cursor, k), l), limit)
    {
      assert EntryOk(start[k + l], Past(cursor, k + l), limit);
      PastShifted(cursor, k, k + l);
    }
    forall l | 0 <= l < |start| - k && start[k..][l].Some?
      ensures start[k..][l].value.clause == At(produced, collected + k, l)
    {
      assert start[k + l].value.clause == At(produced, collected, k + l);
    }
  }

  /** More than a fraction of a long pool are removed entries. */
  const LONG_POOL: nat := 10000

  class Pool {
    const nconsumers: nat
    const leavebehind: nat
    const gclim: int
    /** clauses.start[0..clauses.num). */
    var start: seq<Option<Cls>>
    var first: nat
    var collected: nat
    var clsimported: seq<nat>
    /** All clauses in the order in which they were produced. */
    ghost var produced: seq<Clause>
    /** For every worker which of them it got. */
    ghost var delivered: seq<seq<nat>>

    ghost function Limit(): int {
      nconsumers - leavebehind
    }

    ghost predicate Valid()
      reads this
    {
      && PoolOk(start, first, clsimported, Limit()) && Recent(start, collected, produced)
      && |delivered| == |clsimported|
      && forall i :: 0 <= i < |delivered| ==> InOrder(delivered[i], i, produced, Position(i))
    }

    /** The number of the clause that a worker looks at next. */
    ghost function Position(i: nat): nat
      requires i < |clsimported|
      reads this
    {
      collected + clsimported[i]
    }

    constructor (workers: nat, consumers: nat, behind: nat, limit: int)
      ensures Valid() && nconsumers == consumers && leavebehind == behind && gclim == limit
      ensures produced == [] && |clsimported| == workers && forall i :: 0 <= i < workers ==> delivered[i] == []
    {
      nconsumers, leavebehind, gclim := consumers, behind, limit;
      start, first, collected := [], 0, 0;
      clsimported := seq(workers, _ => 0);
      produced, delivered := [], seq(workers, _ => []);
    }

    method ProduceCls(wid: nat, c: seq<int>, glue: int)
      requires Valid() && wid < |clsimported|
      modifies this`start, this`produced
      ensures Valid() && produced == old(produced) + [Clause(wid, c, glue)]
      ensures start == old(start) + [Some(Cls(Clause(wid, c, glue), 0))]
    {
      ProduceKeeps(start, first, clsimported, Limit(), collected, produced, Clause(wid, c, glue));
      MoreProduced(Clause(wid, c, glue));
      start := start + [Some(Cls(Clause(wid, c, glue), 0))];
      produced := produced + [Clause(wid, c, glue)];
    }

    lemma MoreProduced(c: Clause)
      requires Valid()
      ensures forall i :: 0 <= i < |delivered| ==> InOrder(delivered[i], i, produced + [c], Position(i))
    {
      forall i | 0 <= i < |delivered|
        ensures InOrder(delivered[i], i, produced + [c], Position(i))
      {
        assert InOrder(delivered[i], i, produced, Position(i));
      }
    }

    /** Collects removed entries, and those that at most gclim workers have passed, up to the
        first one that more have. As counts do not grow along the pool, that is all entries, or none
        but the removed ones. */
    method Gcls()
      requires Valid()
      modifies this`start, this`first, this`collected, this`clsimported
      ensures Valid() && first == 0 && |clsimported| == |old(clsimported)| && old(collected + first) <= collected
      ensures Positions(clsimported, collected) == AtLeast(Positions(old(clsimported), old(collected)), collected)
      ensures forall i :: 0 <= i < |clsimported| ==> |start| - clsimported[i] <= |old(start)| - old(clsimported)[i]
      ensures old(first) <= |old(start)|
      ensures Collected(old(start), old(first), old(collected), old(clsimported), CollectTo(old(start), old(first)))
    {
      hide PoolOk, Recent, InOrder, Shifted, Positions, AtLeast, CollectTo;
      var k := MarkCollected();
      CollectedPositions(clsimported, collected, |old(start)|, k);
      CollectKeeps(old(start), first, clsimported, Limit(), collected, produced, k);
      MoveBack(k);
      Compact(k);
      collected, first := collected + k, 0;
      DeliveredStay(old(collected), old(clsimported));
      assert Collected(old(start), old(first), old(collected), old(clsimported), k);
    }

    /** Removes the entries that are collected. */
    method MarkCollected() returns (k: nat)
      requires Valid()
      modifies this`start
      ensures first <= k <= |start| == |old(start)| && start[k..] == old(start)[k..]
      ensures k == CollectTo(old(start), first)
      ensures forall l :: first <= l < k ==> old(start)[l].Some? && old(start)[l].value.count <= gclim
      ensures k < |start| ==> start[k].Some? && start[k].value.count > gclim
      ensures forall l :: first <= l < k ==> start[l].None?
      ensures forall i :: 0 <= i < |clsimported| ==> clsimported[i] <= |start|
    {
      k := first;
      EntriesPresent();
      AllOrNone();
      while k < |start| && start[k].value.count <= gclim
        invariant first <= k <= |start| == |old(start)| && start[k..] == old(start)[k..]
        invariant forall l :: k <= l < |start| ==> start[l] == old(start)[l]
        invariant forall l :: first <= l < |start| ==> old(start)[l].Some?
        invariant forall l :: first <= l < k ==> old(start)[l].value.count <= gclim && start[l].None?
      {
        start := start[k := None];
        k := k + 1;
      }
    }

    /** Nothing live is collected if more than gclim workers have passed the first live entry, else
        everything. */
    function CollectTo(start0: seq<Option<Cls>>, first0: nat): nat {
      if first0 < |start0| && start0[first0].Some? && start0[first0].value.count > gclim then first0 else |start0|
    }

    lemma EntriesPresent()
      requires Valid()
      ensures first <= |start| && forall l :: first <= l < |start| ==> start[l].Some?
    {
      assert forall l :: first <= l < |start| ==> EntryOk(start[l], Past(clsimported, l), Limit());
    }

    /** If the first live entry may go, so may all others. */
    lemma AllOrNone()
      requires Valid()
      ensures first <= |start| && forall l :: first <= l < |start| ==> start[l].Some?
      ensures forall l :: first <= l < |start| ==> start[l].value.count <= start[first].value.count
    {
      forall l | first <= l < |start|
        ensures start[l].Some? && start[first].Some? && start[l].value.count <= start[first].value.count
      {
        assert EntryOk(start[l], Past(clsimported, l), Limit()) && EntryOk(start[first], Past(clsimported, first), Limit());
        PastMonotone(clsimported, first, l);
      }
    }

    /** What Gcls does when it collects k entries. */
    ghost predicate Collected(start0: seq<Option<Cls>>, first0: nat, collected0: nat, cursor0: seq<nat>, k: nat)
      requires first0 <= k <= |start0|
      reads this
    {
      && (forall l :: first0 <= l < k ==> start0[l].Some? && start0[l].value.count <= gclim)
      && (k < |start0| ==> start0[k].Some? && start0[k].value.count > gclim)
      && start == start0[k..] && collected == collected0 + k && clsimported == Shifted(cursor0, k)
    }

    /** Positions that do not go back keep what was delivered. */
    lemma DeliveredStay(collected0: nat, cursor0: seq<nat>)
      requires |cursor0| == |clsimported| == |delivered|
      requires forall i :: 0 <= i < |cursor0| ==> InOrder(delivered[i], i, produced, collected0 + cursor0[i])
      requires forall i :: 0 <= i < |cursor0| ==> collected0 + cursor0[i] <= Position(i)
      ensures forall i :: 0 <= i < |delivered| ==> InOrder(delivered[i], i, produced, Position(i))
    {
      forall i | 0 <= i < |delivered|
        ensures InOrder(delivered[i], i, produced, Position(i))
      {
        assert InOrder(delivered[i], i, produced, collected0 + cursor0[i]);
      }
    }

    method MoveBack(k: nat)
      modifies this`clsimported
      ensures clsimported == Shifted(old(clsimported), k)
    {
      var i := 0;
      while i < |clsimported|
        invariant i <= |clsimported| == |old(clsimported)|
        invariant clsimported[i..] == old(clsimported)[i..]
        invariant forall j :: 0 <= j < i ==> clsimported[j] == Shifted(old(clsimported), k)[j]
      {
        assert clsimported[i] == old(clsimported)[i..][0];
        if k < clsimported[i] {
          clsimported := clsimported[i := clsimported[i] - k];
        } else {
          clsimported := clsimported[i := 0];
        }
        assert clsimported[i + 1..] == old(clsimported)[i..][1..];
        i := i + 1;
      }
    }

    /** Moves the entries from k on to the front. */
    method Compact(k: nat)
      requires k <= |start|
      modifies this`start
      ensures start == old(start)[k..]
    {
      var j, l := 0, k;
      while l < |start|
        invariant k <= l <= |start| == |old(start)| && j == l - k
        invariant forall x :: 0 <= x < j ==> start[x] == old(start)[k + x]
        invariant forall x :: j <= x < |start| ==> start[x] == old(start)[x]
      {
        start := start[j := start[l]];
        j, l := j + 1, l + 1;
      }
      start := start[..|start| - k];
    }

    /** Clause number q has left the pool. */
    ghost predicate Gone(q: nat)
      reads this
    {
      q < collected + first
    }

    /** The next clause for a worker: of another worker, later in the order of production than all it
        got before, and with nothing between but clauses of its own and clauses that have left the
        pool. */
    method ConsumeCls(wid: nat) returns (r: Option<Clause>)
      requires Valid() && wid < |clsimported|
      modifies this`start, this`first, this`collected, this`clsimported, this`delivered
      ensures Valid() && |clsimported| == |old(clsimported)|
      ensures r == None ==> delivered == old(delivered) && clsimported[wid] == |start|
      ensures r.Some? ==>
                && |delivered| == |old(delivered)| && |delivered[wid]| == |old(delivered)[wid]| + 1
                && delivered == old(delivered)[wid := old(delivered)[wid] + [Last(delivered[wid])]]
                && old(Position(wid)) <= Last(delivered[wid]) < |produced| && produced[Last(delivered[wid])] == r.value
                && r.value.wid != wid
      ensures var upto := if r == None then |produced| else Last(delivered[wid]);
              Skipped(produced, collected + first, old(Position(wid)), upto, wid)
      ensures Limit() >= |clsimported| && collected == 0 ==>
                var upto := if r == None then |produced| else Last(delivered[wid]);
                Skipped(produced, 0, old(Position(wid)), upto, wid)
      ensures forall j :: 0 <= j < |clsimported| && j != wid ==> Position(j) == Max(old(Position(j)), collected)
    {
      hide PoolOk, Recent, InOrder, Skipped, AtLeast, CollectsIfCrowded;
      ghost var others := Positions(clsimported, collected);
      ghost var from := Position(wid);
      SkippedNone(produced, collected + first, from, wid);
      SkippedNone(produced, 0, from, wid);
      while true
        invariant Valid() && delivered == old(delivered) && |clsimported| == |old(clsimported)|
        invariant old(collected) <= collected
        invariant from <= Position(wid)
        invariant |others| == |clsimported|
        invariant forall j :: 0 <= j < |clsimported| && j != wid ==> Position(j) == Max(others[j], collected)
        invariant Skipped(produced, collected + first, from, Position(wid), wid)
        invariant Limit() >= |clsimported| && collected == 0 ==> Skipped(produced, 0, from, Position(wid), wid)
        decreases |start| - clsimported[wid]
      {
        AtEnd(wid);
        if clsimported[wid] == |start| {
          return None;
        }
        ghost var p, pos := Position(wid), Positions(clsimported, collected);
        ghost var gone := collected + first;
        assert InOrder(delivered[wid], wid, produced, p);
        r := PassOne(wid);
        AfterPass(pos, wid, p);
        PassSkips(gone, from, p, wid, r);
        if r.Some? && r.value.wid != wid {
          Deliver(wid, p);
          return;
        }
        FullSkips(from, p, wid, r);
      }
    }

    /** What lies between after a round: nothing new before the clause returned. */
    lemma PassSkips(gone: nat, from: nat, p: nat, wid: nat, r: Option<Clause>)
      requires wid < |clsimported| && p < |produced| && r == if p < gone then None else Some(produced[p])
      requires Skipped(produced, gone, from, p, wid) && gone <= collected + first && Position(wid) == Max(p + 1, collected)
      ensures Skipped(produced, collected + first, from, if r.Some? && r.value.wid != wid then p else Position(wid), wid)
    {
    }

    /** While nothing is collected and every entry is there, only own clauses are passed over. */
    lemma FullSkips(from: nat, p: nat, wid: nat, r: Option<Clause>)
      requires wid < |clsimported| && Position(wid) == Max(p + 1, collected) && p < |produced|
      requires r == Some(produced[p]) ==> produced[p].wid == wid
      ensures collected == 0 && r == Some(produced[p]) && Skipped(produced, 0, from, p, wid)
              ==> Skipped(produced, 0, from, Position(wid), wid)
    {
    }

    lemma AtEnd(wid: nat)
      requires Valid() && wid < |clsimported|
      ensures clsimported[wid] <= |start| && (clsimported[wid] == |start| ==> Position(wid) == |produced|)
    {
    }

    lemma AfterPass(pos0: seq<nat>, wid: nat, p: nat)
      requires |pos0| == |clsimported| && wid < |pos0|
      requires Positions(clsimported, collected) == AtLeast(pos0[wid := p + 1], collected)
      ensures Position(wid) == Max(p + 1, collected)
      ensures forall j :: 0 <= j < |clsimported| && j != wid ==> Position(j) == Max(pos0[j], collected)
    {
      forall j | 0 <= j < |clsimported|
        ensures Position(j) == Max(pos0[wid := p + 1][j], collected)
      {
        assert Positions(clsimported, collected)[j] == Position(j);
      }
    }

    ghost method Deliver(wid: nat, p: nat)
      requires Valid() && wid < |clsimported| && p < Position(wid) && p < |produced| && produced[p].wid != wid
      requires InOrder(delivered[wid], wid, produced, p)
      modifies this`delivered
      ensures Valid() && delivered == old(delivered)[wid := old(delivered)[wid] + [p]]
    {
      delivered := delivered[wid := delivered[wid] + [p]];
    }

    /** Enough workers have passed the entry, once one more has. */
    predicate Completes(cls: Option<Cls>) {
      cls.Some? && cls.value.count + 1 + leavebehind >= nconsumers
    }

    /** A pool of that length is long, and its removed part is too. */
    predicate Crowded(length: nat, removed: nat) {
      length > LONG_POOL && removed > length / (nconsumers + 1)
    }

    /** The pool is collected exactly if an entry was completed and the pool is crowded. */
    ghost predicate CollectsIfCrowded(start0: seq<Option<Cls>>, first0: nat, collected0: nat, k: nat, first': nat, collected': nat)
      requires k < |start0|
    {
      if Completes(start0[k]) && Crowded(|start0|, first0 + 1) then first' == 0 && collected' > collected0 + first0
      else collected' == collected0 && first' == first0 + if Completes(start0[k]) then 1 else 0
    }

    /** One round of the loop in ConsumeCls: passes the entry at the cursor of a worker, and collects
        when that completed one in a crowded pool. */
    method PassOne(wid: nat) returns (r: Option<Clause>)
      requires Valid() && wid < |clsimported| && clsimported[wid] < |start|
      modifies this`start, this`first, this`collected, this`clsimported
      ensures Valid() && wid < |clsimported| && |start| - clsimported[wid] < old(|start| - clsimported[wid])
      ensures var p := old(Position(wid));
              && Positions(clsimported, collected) == AtLeast(old(Positions(clsimported, collected))[wid := p + 1], collected)
              && p < |produced| && r == if old(Gone(p)) then None else Some(produced[p])
      ensures old(collected + first) <= collected + first && old(collected) <= collected
      ensures CollectsIfCrowded(old(start), old(first), old(collected), old(clsimported)[wid], first, collected)
      ensures Limit() >= |clsimported| ==> r.Some?
    {
      var complete;
      r, complete := PassEntry(wid);
      if complete && Crowded(|start|, first) {
        Gcls();
      }
    }

    /** Passes the entry and removes it when enough workers have done so. */
    method PassEntry(wid: nat) returns (r: Option<Clause>, complete: bool)
      requires Valid() && wid < |clsimported| && clsimported[wid] < |start|
      modifies this`start, this`first, this`clsimported
      ensures Valid() && |start| == |old(start)| && clsimported == old(clsimported)[wid := old(clsimported)[wid] + 1]
      ensures Positions(clsimported, collected) == AtLeast(old(Positions(clsimported, collected))[wid := old(Position(wid)) + 1], collected)
      ensures var p := old(Position(wid));
              p < |produced| && r == if old(Gone(p)) then None else Some(produced[p])
      ensures first == old(first) + (if complete then 1 else 0) && complete == Completes(old(start)[old(clsimported)[wid]])
      ensures Limit() >= |clsimported| ==> r.Some?
    {
      hide InOrder, PoolOk, Recent;
      var res := clsimported[wid];
      AtCursor(wid);
      var cls := start[res];
      complete := false;
      if cls == None {
        r := None;
        SkipKeeps(start, first, clsimported, Limit(), wid);
      } else {
        r := Some(cls.value.clause);
        PassKeeps(start, first, clsimported, Limit(), wid);
        PassedRecent(start, collected, produced, res, Limit());
        var count := cls.value.count + 1;
        start := start[res := Some(cls.value.(count := count))];
        if count + leavebehind >= nconsumers {
          start := start[res := None];
          first := first + 1;
          complete := true;
        }
        assert start == Passed(old(start), res, Limit());
      }
      clsimported := clsimported[wid := res + 1];
      DeliveredStay(collected, old(clsimported));
    }

    /** What lies at the cursor of a worker. */
    lemma AtCursor(wid: nat)
      requires Valid() && wid < |clsimported| && clsimported[wid] < |start|
      ensures Position(wid) < |produced| && |produced| == collected + |start|
      ensures start[clsimported[wid]] == None <==> Gone(Position(wid))
      ensures start[clsimported[wid]].Some? ==> start[clsimported[wid]].value.clause == produced[Position(wid)]
      ensures Limit() >= |clsimported| ==> start[clsimported[wid]].Some?
    {
      var k := clsimported[wid];
      assert k >= first ==> EntryOk(start[k], Past(clsimported, k), Limit());
      assert start[k].Some? ==> start[k].value.clause == At(produced, collected, k);
      if Limit() >= |clsimported| {
        StaysForAll(start, first, clsimported, Limit(), wid);
      }
    }
  }

  /** The numbers of the clauses that workers look at next. */
  function Positions(cursor: seq<nat>, collected: nat): (r: seq<nat>)
    ensures |r| == |cursor|
  {
    seq(|cursor|, i requires 0 <= i < |cursor| => collected + cursor[i])
  }

  function Max(a: nat, b: nat): nat {
    if a < b then b else a
  }

  function Last(s: seq<nat>): nat {
    if s == [] then 0 else s[|s| - 1]
  }

  lemma CollectedPositions(cursor: seq<nat>, collected: nat, n: nat, k: nat)
    requires k <= n && forall i :: 0 <= i < |cursor| ==> cursor[i] <= n
    ensures Positions(Shifted(cursor, k), collected + k) == AtLeast(Positions(cursor, collected), collected + k)
    ensures forall i :: 0 <= i < |cursor| ==> n - k - Shifted(cursor, k)[i] <= n - cursor[i]
    ensures forall i :: 0 <= i < |cursor| ==> collected + cursor[i] <= collected + k + Shifted(cursor, k)[i]
  {
  }

  /** A worker that went from one clause to another skipped only clauses of its own and those
      before `gone`. */
  ghost predicate Skipped(produced: seq<Clause>, gone: nat, from: nat, upto: nat, wid: nat) {
    forall q: nat :: from <= q < upto && q < |produced| ==> produced[q].wid == wid || q < gone
  }

  lemma SkippedNone(produced: seq<Clause>, gone: nat, from: nat, wid: nat)
    ensures Skipped(produced, gone, from, from, wid)
  {
  }

  /** Positions after everything before c is gone. */
  function AtLeast(s: seq<nat>, c: nat): (r: seq<nat>)
    ensures |r| == |s|
  {
    seq(|s|, i requires 0 <= i < |s| => if s[i] < c then c else s[i])
  }

  lemma PassedRecent(start: seq<Option<Cls>>, collected: nat, produced: seq<Clause>, k: nat, limit: int)
    requires Recent(start, collected, produced) && k < |start| && start[k].Some?
    ensures Recent(Passed(start, k, limit), collected, produced)
  {
    forall l | 0 <= l < |start| && Passed(start, k, limit)[l].Some?
      ensures Passed(start, k, limit)[l].value.clause == At(produced, collected, l)
    {
      assert start[l].value.clause == At(produced, collected, l);
    }
  }
}
