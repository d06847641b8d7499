/** The database from which the shortest clauses are selected for sharing. */
module ClauseDatabases {
  import opened ClauseManagers

  /** No more literals than this are kept for one size. */
  const BUCKET_LITERALS: nat := 1000

  // ---------- references held by a database ----------

  function Ids(buckets: seq<seq<nat>>): multiset<nat> {
    if buckets == [] then multiset{} else Ids(buckets[..|buckets| - 1]) + multiset(buckets[|buckets| - 1])
  }

  lemma {:induction false} IdsUpdate(buckets: seq<seq<nat>>, i: nat, b: seq<nat>)
    requires i < |buckets|
    ensures Ids(buckets[i := b]) + multiset(buckets[i]) == Ids(buckets) + multiset(b)
    decreases |buckets|
  {
    var n := |buckets| - 1;
    if i < n {
      IdsUpdate(buckets[..n], i, b);
      assert buckets[i := b][..n] == buckets[..n][i := b];
      var last := multiset(buckets[n]);
      assert Ids(buckets[..n][i := b]) + last + multiset(buckets[i]) == Ids(buckets[..n][i := b]) + multiset(buckets[i]) + last;
      assert Ids(buckets[..n]) + last + multiset(b) == Ids(buckets[..n]) + multiset(b) + last;
    } else {
      assert buckets[i := b][..n] == buckets[..n];
    }
  }

  /** Bucket i holds clauses of i + 1 literals, and less than the limit of them. */
  ghost predicate BucketsOk(buckets: seq<seq<nat>>, clauses: seq<Exchange>) {
    forall i :: 0 <= i < |buckets| ==> BucketOk(buckets[i], i + 1, clauses)
  }

  ghost predicate BucketOk(bucket: seq<nat>, size: nat, clauses: seq<Exchange>) {
    && |bucket| * size < BUCKET_LITERALS
    && forall c :: c in bucket ==> c < |clauses| && |clauses[c].lits| == size
  }

  // ---------- selections by size ----------

  /** Taking s[i] clauses of i + 1 literals: how many clauses are that? */
  function Count(s: seq<nat>): nat {
    if s == [] then 0 else Count(s[..|s| - 1]) + s[|s| - 1]
  }

  /** And how many literals? */
  function Cost(s: seq<nat>): nat {
    if s == [] then 0 else Cost(s[..|s| - 1]) + |s| * s[|s| - 1]
  }

  lemma CountCost(s: seq<nat>, x: nat)
    ensures Count(s + [x]) == Count(s) + x && Cost(s + [x]) == Cost(s) + (|s| + 1) * x
  {
    assert (s + [x])[..|s|] == s;
  }

  function Lengths(buckets: seq<seq<nat>>): seq<nat> {
    seq(|buckets|, i requires 0 <= i < |buckets| => |buckets[i]|)
  }

  /** A selection that the buckets allow and that stays within the budget. */
  predicate Fits(s: seq<nat>, available: seq<nat>, budget: nat) {
    && |s| == |available| && Cost(s) <= budget
    && forall i :: 0 <= i < |s| ==> s[i] <= available[i]
  }

  /** All of the sizes below m + 1, some of size m + 1 until less than that many literals are left
      in the budget, and nothing longer. */
  predicate Greedy(g: seq<nat>, available: seq<nat>, budget: nat, m: nat) {
    && Fits(g, available, budget) && m <= |g|
    && (forall i :: 0 <= i < m ==> g[i] == available[i])
    && (forall i :: m < i < |g| ==> g[i] == 0)
    && (m < |g| ==> budget - Cost(g) < m + 1)
  }

  /** Replacing clauses of up to m + 1 literals by others costs at least m + 1 literals each. */
  lemma {:induction false} ExchangeCost(g: seq<nat>, s: seq<nat>, m: nat)
    requires |g| == |s|
    requires forall i :: 0 <= i < m && i < |g| ==> s[i] <= g[i]
    requires forall i :: m < i < |g| ==> g[i] == 0
    ensures Cost(s) - Cost(g) >= (m + 1) * (Count(s) - Count(g))
    decreases |g|
  {
    if g != [] {
      var n := |g| - 1;
      ExchangeCost(g[..n], s[..n], m);
      LastSize(n, m, s[n], g[n]);
      Distribute(m + 1, Count(s[..n]) - Count(g[..n]), s[n], g[n]);
    }
  }

  lemma LastSize(n: nat, m: nat, x: nat, y: nat)
    requires (n < m ==> x <= y) && (n > m ==> y == 0)
    ensures (n + 1) * x - (n + 1) * y >= (m + 1) * x - (m + 1) * y
  {
    if n < m {
      Scale(n + 1, m + 1, y - x);
    } else if n > m {
      Scale(m + 1, n + 1, x);
    }
  }

  lemma Scale(a: nat, b: nat, d: nat)
    requires a <= b
    ensures a * d <= b * d
  {
  }

  lemma AtLeastOnce(d: int, a: nat)
    ensures d >= 1 ==> a * d >= a
  {
  }

  lemma Distribute(a: int, z: int, x: int, y: int)
    ensures a * (z + x - y) == a * z + (a * x - a * y)
  {
  }

  /** No selection within the budget has more clauses than the greedy one. */
  lemma GreedyIsLargest(g: seq<nat>, available: seq<nat>, budget: nat, m: nat, s: seq<nat>)
    requires Greedy(g, available, budget, m) && Fits(s, available, budget)
    ensures Count(s) <= Count(g)
  {
    if m == |g| {
      CountMonotone(s, g);
    } else {
      hide Count, Cost;
      ExchangeCost(g, s, m);
      AtLeastOnce(Count(s) - Count(g), m + 1);
    }
  }

  lemma {:induction false} CountMonotone(s: seq<nat>, g: seq<nat>)
    requires |s| == |g| && forall i :: 0 <= i < |s| ==> s[i] <= g[i]
    ensures Count(s) <= Count(g)
  {
    if s != [] {
      CountMonotone(s[..|s| - 1], g[..|g| - 1]);
    }
  }

  // ---------- the database ----------

  /** At least n buckets. */
  function Grown(buckets: seq<seq<nat>>, n: nat): (r: seq<seq<nat>>)
    ensures |r| >= n && |r| >= |buckets| && r[..|buckets|] == buckets
    ensures forall i :: |buckets| <= i < |r| ==> r[i] == []
  {
    buckets + seq(if n < |buckets| then 0 else n - |buckets|, _ => [])
  }

  lemma {:induction false} GrownSame(buckets: seq<seq<nat>>, r: seq<seq<nat>>)
    requires |r| >= |buckets| && r[..|buckets|] == buckets && forall i :: |buckets| <= i < |r| ==> r[i] == []
    ensures Ids(r) == Ids(buckets)
    decreases |r|
  {
    if |r| > |buckets| {
      GrownSame(buckets, r[..|r| - 1]);
    } else {
      assert r == buckets;
    }
  }

  /** The database after a clause was added to bucket size - 1. */
  function Put(buckets: seq<seq<nat>>, c: nat, size: nat): seq<seq<nat>>
    requires 1 <= size <= |buckets|
  {
    buckets[size - 1 := buckets[size - 1] + [c]]
  }

  /** Is there room for one more clause of this size? */
  predicate HasRoom(buckets: seq<seq<nat>>, size: nat)
    requires size >= 1
  {
    (|Grown(buckets, size)[size - 1]| + 1) * size < BUCKET_LITERALS
  }

  function Added(buckets: seq<seq<nat>>, c: nat, size: nat): seq<seq<nat>>
    requires size >= 1
  {
    if HasRoom(buckets, size) then Put(Grown(buckets, size), c, size) else Grown(buckets, size)
  }

  /** The database after some clauses were offered to it. */
  function AddedAll(buckets: seq<seq<nat>>, ids: seq<nat>, clauses: seq<Exchange>): seq<seq<nat>>
    requires Proper(ids, clauses)
  {
    if ids == [] then buckets
    else
      var c := ids[|ids| - 1];
      Added(AddedAll(buckets, ids[..|ids| - 1], clauses), c, |clauses[c].lits|)
  }

  /** Clauses that exist and have a literal. */
  predicate Proper(ids: seq<nat>, clauses: seq<Exchange>) {
    forall k :: 0 <= k < |ids| ==> ids[k] < |clauses| && clauses[ids[k]].lits != []
  }

  /** The number of literals of some clauses. */
  function TotalSize(ids: seq<nat>, clauses: seq<Exchange>): nat
    requires Proper(ids, clauses)
  {
    if ids == [] then 0 else TotalSize(ids[..|ids| - 1], clauses) + |clauses[ids[|ids| - 1]].lits|
  }

  /** Clauses from bucket i bring i + 1 literals each. */
  lemma TakenSizes(selected: seq<nat>, taken: seq<nat>, buckets: seq<seq<nat>>, i: nat, clauses: seq<Exchange>)
    requires BucketsOk(buckets, clauses) && i < |buckets| && Proper(selected, clauses)
    requires forall k :: 0 <= k < |taken| ==> taken[k] in buckets[i]
    ensures Proper(selected + taken, clauses)
    ensures TotalSize(selected + taken, clauses) == TotalSize(selected, clauses) + (i + 1) * |taken|
  {
    assert BucketOk(buckets[i], i + 1, clauses);
    SameSizes(selected, taken, i + 1, clauses);
  }

  lemma {:induction false} SameSizes(selected: seq<nat>, taken: seq<nat>, size: nat, clauses: seq<Exchange>)
    requires Proper(selected, clauses) && size > 0
    requires forall k :: 0 <= k < |taken| ==> taken[k] < |clauses| && |clauses[taken[k]].lits| == size
    ensures Proper(selected + taken, clauses)
    ensures TotalSize(selected + taken, clauses) == TotalSize(selected, clauses) + size * |taken|
    decreases |taken|
  {
    if taken == [] {
      assert selected + taken == selected;
    } else {
      var n := |taken| - 1;
      SameSizes(selected, taken[..n], size, clauses);
      assert (selected + taken)[..|selected + taken| - 1] == selected + taken[..n];
      Distribute(size, n, 1, 0);
    }
  }

  lemma AddedOneMore(buckets: seq<seq<nat>>, ids: seq<nat>, c: nat, clauses: seq<Exchange>)
    requires Proper(ids, clauses) && c < |clauses| && clauses[c].lits != []
    ensures Proper(ids + [c], clauses)
    ensures AddedAll(buckets, ids + [c], clauses) == Added(AddedAll(buckets, ids, clauses), c, |clauses[c].lits|)
  {
    assert (ids + [c])[..|ids|] == ids;
  }

  lemma PutIds(buckets: seq<seq<nat>>, c: nat, size: nat)
    requires 1 <= size <= |buckets|
    ensures Ids(Put(buckets, c, size)) == Ids(buckets) + multiset{c}
  {
    var b := buckets[size - 1];
    IdsUpdate(buckets, size - 1, b + [c]);
    Cancel(Ids(Put(buckets, c, size)), multiset(b), Ids(buckets) + multiset{c});
  }

  lemma Cancel(a: multiset<nat>, b: multiset<nat>, c: multiset<nat>)
    requires a + b == c + b
    ensures a == c
  {
    assert a == (a + b) - b && c == (c + b) - b;
  }

  lemma PutOk(buckets: seq<seq<nat>>, c: nat, size: nat, clauses: seq<Exchange>)
    requires 1 <= size <= |buckets| && BucketsOk(buckets, clauses) && c < |clauses| && |clauses[c].lits| == size
    requires (|buckets[size - 1]| + 1) * size < BUCKET_LITERALS
    ensures BucketsOk(Put(buckets, c, size), clauses)
  {
    var b := buckets[size - 1];
    assert BucketOk(b, size, clauses);
    assert BucketOk(b + [c], size, clauses);
  }

  /** Buckets stay in order when more clauses are allocated. */
  lemma MoreClauses(buckets: seq<seq<nat>>, clauses: seq<Exchange>, clauses': seq<Exchange>)
    requires BucketsOk(buckets, clauses) && |clauses| <= |clauses'| && clauses'[..|clauses|] == clauses
    ensures BucketsOk(buckets, clauses')
  {
    forall i | 0 <= i < |buckets|
      ensures BucketOk(buckets[i], i + 1, clauses')
    {
      assert BucketOk(buckets[i], i + 1, clauses);
      assert forall c :: 0 <= c < |clauses| ==> clauses'[c] == clauses'[..|clauses|][c];
    }
  }

  class ClauseDatabase {
    var clauses: seq<seq<nat>>

    constructor ()
      ensures clauses == [] && Ids(clauses) == multiset{}
    {
      clauses := [];
    }

    /** Takes over a reference to a clause, or gives it up when there are enough of that size. */
    method AddClause(m: ClauseManager, clause: nat, ghost held: multiset<nat>) returns (kept: bool)
      requires m.Owns(held) && clause in held && BucketsOk(clauses, m.clauses)
      requires clause < |m.clauses| && |m.clauses[clause].lits| >= 1
      modifies this, m`nbRefs, m`freed
      ensures BucketsOk(clauses, m.clauses)
      ensures kept <==> HasRoom(old(clauses), |m.clauses[clause].lits|)
      ensures clauses == Added(old(clauses), clause, |m.clauses[clause].lits|)
      ensures Ids(clauses) == if kept then old(Ids(clauses)) + multiset{clause} else old(Ids(clauses))
      ensures m.Owns(if kept then held else held - multiset{clause})
    {
      var clsSize := |m.clauses[clause].lits|;
      ghost var buckets := clauses;
      Widen(clsSize, m.clauses);
      GrownSame(buckets, clauses);
      if (|clauses[clsSize - 1]| + 1) * clsSize < BUCKET_LITERALS {
        PutIds(clauses, clause, clsSize);
        PutOk(clauses, clause, clsSize, m.clauses);
        clauses := clauses[clsSize - 1 := clauses[clsSize - 1] + [clause]];
        kept := true;
      } else {
        m.ReleaseClause(clause, held);
        kept := false;
      }
    }

    method Widen(n: nat, ghost all: seq<Exchange>)
      requires BucketsOk(clauses, all)
      modifies this
      ensures clauses == Grown(old(clauses), n) && BucketsOk(clauses, all)
    {
      while |clauses| < n
        invariant |clauses| >= |old(clauses)| && clauses[..|old(clauses)|] == old(clauses)
        invariant forall i :: |old(clauses)| <= i < |clauses| ==> clauses[i] == []
        invariant |clauses| > |old(clauses)| ==> |clauses| <= n
      {
        clauses := clauses + [[]];
      }
      assert clauses == Grown(old(clauses), n);
      forall i | 0 <= i < |clauses|
        ensures BucketOk(clauses[i], i + 1, all)
      {
        assert i < |old(clauses)| ==> clauses[i] == old(clauses)[i] && BucketOk(old(clauses)[i], i + 1, all);
      }
    }

    /** Selects clauses, the shortest first, within a budget of literals. */
    method GiveSelection(totalSize: nat, ghost all: seq<Exchange>)
      returns (selected: seq<nat>, used: nat, selectCount: nat, ghost g: seq<nat>, ghost m: nat)
      requires BucketsOk(clauses, all)
      modifies this
      ensures BucketsOk(clauses, all) && Proper(selected, all) && used == TotalSize(selected, all)
      ensures |clauses| == |old(clauses)| == |g| && Shortened(old(clauses), clauses, g)
      ensures used == Cost(g) && selectCount == Count(g) == |selected|
      ensures Greedy(g, Lengths(old(clauses)), totalSize, m)
      ensures multiset(selected) + Ids(clauses) == old(Ids(clauses))
    {
      hide Greedy, Ids, Shortened, Cost, Count, Selecting, BucketsOk, Proper, TotalSize;
      selected, used, selectCount, g, m := [], 0, 0, [], 0;
      NothingSelected(clauses, totalSize, all);
      var i := 0;
      while i < |clauses|
        invariant i <= |clauses| == |old(clauses)| && used <= totalSize
        invariant clauses[i..] == old(clauses)[i..]
        invariant Selecting(old(clauses), clauses, g, m, i, totalSize, used, selectCount, |selected|)
        invariant multiset(selected) + Ids(clauses) == old(Ids(clauses))
        invariant Proper(selected, all) && used == TotalSize(selected, all)
      {
        var clsSize := i + 1;
        var left := totalSize - used;
        if left < clsSize {
          SelectionStops(old(clauses), clauses, g, m, i, totalSize, used, selectCount, |selected|);
          g := g + Zeros(|clauses| - i);
          ShortenedOk(old(clauses), clauses, g, all);
          return;
        }
        SelectionGoesOn(old(clauses), clauses, g, m, i, totalSize, used, selectCount, |selected|);
        m := if left >= clsSize * |clauses[i]| then i + 1 else i;
        g := g + [Room(left, clsSize, |clauses[i]|)];
        var taken := TakeFrom(i, left);
        TakenSizes(selected, taken, old(clauses), i, all);
        used := used + clsSize * |taken|;
        selected := selected + taken;
        selectCount := selectCount + |taken|;
        i := i + 1;
      }
      SelectionEnds(old(clauses), clauses, g, m, i, totalSize, used, selectCount, |selected|);
      ShortenedOk(old(clauses), clauses, g, all);
    }

    /** All clauses of one size, if there is room for them, or as many as there is room for. */
    method TakeFrom(i: nat, left: nat) returns (taken: seq<nat>)
      requires i < |clauses|
      modifies this
      ensures forall k :: 0 <= k < |taken| ==> taken[k] in old(clauses)[i]
      ensures var n := Room(left, i + 1, |old(clauses)[i]|);
              && n <= |old(clauses)[i]| && |taken| == n
              && clauses == old(clauses)[i := old(clauses)[i][..|old(clauses)[i]| - n]]
      ensures multiset(taken) + Ids(clauses) == old(Ids(clauses))
    {
      hide Ids, Room;
      var clsSize := i + 1;
      ghost var b := clauses[i];
      RoomCases(left, clsSize, |b|);
      if left >= clsSize * |clauses[i]| {
        taken := clauses[i];
        clauses := clauses[i := []];
        assert b[..0] == [] && b[0..] == b;
        TakenIds(old(clauses), i, 0, taken);
      } else {
        var nCls := left / clsSize;
        taken := PopSome(i, nCls);
        TakenIds(old(clauses), i, |b| - nCls, taken);
      }
    }

    /** Pops n clauses from the back of a bucket. */
    method PopSome(i: nat, n: nat) returns (taken: seq<nat>)
      requires i < |clauses| && n <= |clauses[i]|
      modifies this
      ensures clauses == old(clauses)[i := old(clauses)[i][..|old(clauses)[i]| - n]]
      ensures |taken| == n && forall k :: 0 <= k < n ==> taken[k] == old(clauses)[i][|old(clauses)[i]| - 1 - k]
      ensures multiset(taken) == multiset(old(clauses)[i][|old(clauses)[i]| - n..])
    {
      ghost var b := clauses[i];
      taken := [];
      var k := 0;
      assert b[..|b|] == b && b[|b|..] == [];
      while k < n
        invariant k <= n && |taken| == k && clauses == old(clauses)[i := b[..|b| - k]]
        invariant forall j :: 0 <= j < k ==> taken[j] == b[|b| - 1 - j]
        invariant multiset(taken) == multiset(b[|b| - k..])
      {
        LastOut(b, k);
        taken := taken + [clauses[i][|clauses[i]| - 1]];
        clauses := clauses[i := clauses[i][..|clauses[i]| - 1]];
        k := k + 1;
      }
    }
  }

  lemma Divides(left: nat, size: nat, n: nat)
    requires size > 0 && left < size * n
    ensures left / size < n && left - size * (left / size) < size && size * (left / size) <= left
  {
    if left / size >= n {
      Scale(n, left / size, size);
      assert false;
    }
  }

  lemma TakenIds(buckets: seq<seq<nat>>, i: nat, n: nat, taken: seq<nat>)
    requires i < |buckets| && n <= |buckets[i]| && multiset(taken) == multiset(buckets[i][n..])
    ensures multiset(taken) + Ids(buckets[i := buckets[i][..n]]) == Ids(buckets)
  {
    var b := buckets[i];
    assert b == b[..n] + b[n..];
    IdsUpdate(buckets, i, b[..n]);
    Cancel(multiset(taken) + Ids(buckets[i := b[..n]]), multiset(b[..n]), Ids(buckets));
  }

  /** Each bucket has lost clauses from its end. */
  ghost predicate Shortened(before: seq<seq<nat>>, after: seq<seq<nat>>, g: seq<nat>) {
    && |before| == |after| == |g|
    && forall i :: 0 <= i < |g| ==> g[i] <= |before[i]| && after[i] == before[i][..|before[i]| - g[i]]
  }

  lemma ShortenedStops(before: seq<seq<nat>>, after: seq<seq<nat>>, g: seq<nat>, i: nat)
    requires i <= |before| == |after| && Shortened(before[..i], after[..i], g) && after[i..] == before[i..]
    ensures Shortened(before, after, g + Zeros(|before| - i))
  {
    forall k | 0 <= k < |before|
      ensures (g + Zeros(|before| - i))[k] <= |before[k]| && after[k] == before[k][..|before[k]| - (g + Zeros(|before| - i))[k]]
    {
      if k < i {
        assert before[..i][k] == before[k] && after[..i][k] == after[k];
      } else {
        assert before[i..][k - i] == before[k] && after[i..][k - i] == after[k];
      }
    }
  }

  lemma ShortenedGoesOn(before: seq<seq<nat>>, after: seq<seq<nat>>, g: seq<nat>, i: nat, n: nat)
    requires i < |before| == |after| && Shortened(before[..i], after[..i], g) && n <= |before[i]|
    ensures Shortened(before[..i + 1], after[i := before[i][..|before[i]| - n]][..i + 1], g + [n])
  {
    var after' := after[i := before[i][..|before[i]| - n]];
    assert after'[..i + 1] == after[..i] + [before[i][..|before[i]| - n]] && before[..i + 1] == before[..i] + [before[i]];
  }

  /** Shorter buckets are still in order. */
  lemma ShortenedOk(before: seq<seq<nat>>, after: seq<seq<nat>>, g: seq<nat>, clauses: seq<Exchange>)
    requires BucketsOk(before, clauses) && Shortened(before, after, g)
    ensures BucketsOk(after, clauses)
  {
    forall i | 0 <= i < |after|
      ensures BucketOk(after[i], i + 1, clauses)
    {
      assert BucketOk(before[i], i + 1, clauses);
      Scale(|after[i]|, |before[i]|, i + 1);
    }
  }

  lemma LastOut(b: seq<nat>, k: nat)
    requires k < |b|
    ensures multiset(b[|b| - (k + 1)..]) == multiset(b[|b| - k..]) + multiset{b[|b| - 1 - k]}
    ensures b[..|b| - k][..|b| - k - 1] == b[..|b| - (k + 1)]
  {
    assert b[|b| - (k + 1)..] == [b[|b| - 1 - k]] + b[|b| - k..];
  }

  /** How many of n clauses of a size there is room for. */
  function Room(left: nat, size: nat, n: nat): nat
    requires size > 0
  {
    if left >= size * n then n else left / size
  }

  lemma RoomCases(left: nat, size: nat, n: nat)
    requires size > 0
    ensures Room(left, size, n) <= n
    ensures left >= size * n ==> Room(left, size, n) == n
    ensures left < size * n ==> Room(left, size, n) == left / size
  {
    if left < size * n {
      Divides(left, size, n);
    }
  }

  /** The state of a selection that has come to bucket i. */
  ghost predicate Selecting(before: seq<seq<nat>>, now: seq<seq<nat>>, g: seq<nat>, m: nat, i: nat,
                            budget: nat, used: nat, selectCount: nat, selected: nat) {
    && i <= |before| == |now| && |g| == i && now[i..] == before[i..]
    && Shortened(before[..i], now[..i], g)
    && used == Cost(g) <= budget && selectCount == Count(g) == selected
    && Greedy(g, Lengths(before)[..i], budget, m)
  }

  lemma NothingSelected(before: seq<seq<nat>>, budget: nat, all: seq<Exchange>)
    ensures Selecting(before, before, [], 0, 0, budget, 0, 0, 0)
    ensures Proper([], all) && TotalSize([], all) == 0
  {
  }

  lemma SelectionStops(before: seq<seq<nat>>, now: seq<seq<nat>>, g: seq<nat>, m: nat, i: nat,
                       budget: nat, used: nat, selectCount: nat, selected: nat)
    requires Selecting(before, now, g, m, i, budget, used, selectCount, selected) && i < |before| && budget - used < i + 1
    ensures var g' := g + Zeros(|now| - i);
            && |g'| == |before| && Shortened(before, now, g') && used == Cost(g') && selectCount == Count(g') == selected
            && Greedy(g', Lengths(before), budget, m)
  {
    hide Greedy, Shortened, Cost, Count;
    GreedyStops(g, Lengths(before), budget, m, i);
    ShortenedStops(before, now, g, i);
  }

  lemma SelectionEnds(before: seq<seq<nat>>, now: seq<seq<nat>>, g: seq<nat>, m: nat, i: nat,
                      budget: nat, used: nat, selectCount: nat, selected: nat)
    requires Selecting(before, now, g, m, i, budget, used, selectCount, selected) && i == |before|
    ensures |g| == |before| && Shortened(before, now, g) && used == Cost(g) && selectCount == Count(g) == selected
    ensures Greedy(g, Lengths(before), budget, m)
  {
    hide Greedy, Shortened, Cost, Count;
    assert before[..i] == before && now[..i] == now && Lengths(before)[..i] == Lengths(before);
  }

  lemma SelectionGoesOn(before: seq<seq<nat>>, now: seq<seq<nat>>, g: seq<nat>, m: nat, i: nat,
                        budget: nat, used: nat, selectCount: nat, selected: nat)
    requires Selecting(before, now, g, m, i, budget, used, selectCount, selected) && i < |before| && budget - used >= i + 1
    ensures now[i] == before[i]
    ensures var left, b := budget - used, before[i];
            var n := Room(left, i + 1, |b|);
            && n <= |b| && used + (i + 1) * n <= budget && now[i := b[..|b| - n]][i + 1..] == before[i + 1..]
            && Selecting(before, now[i := b[..|b| - n]], g + [n], if left >= (i + 1) * |b| then i + 1 else i, i + 1,
                         budget, used + (i + 1) * n, selectCount + n, selected + n)
  {
    hide Greedy, Shortened, Cost, Count;
    var b := before[i];
    var n := Room(budget - used, i + 1, |b|);
    assert now[i] == now[i..][0] && before[i] == before[i..][0];
    if budget - used < (i + 1) * |b| {
      Divides(budget - used, i + 1, |b|);
    }
    GreedyGoesOn(g, Lengths(before), budget, m, i, n);
    ShortenedGoesOn(before, now, g, i, n);
    assert now[i := b[..|b| - n]][i + 1..] == now[i..][1..] && before[i + 1..] == before[i..][1..];
  }

  function Zeros(n: nat): (z: seq<nat>)
    ensures |z| == n && forall i :: 0 <= i < n ==> z[i] == 0
  {
    seq(n, _ => 0)
  }

  lemma {:induction false} CostOfZeros(g: seq<nat>, n: nat)
    ensures Cost(g + Zeros(n)) == Cost(g) && Count(g + Zeros(n)) == Count(g)
  {
    if n == 0 {
      assert g + Zeros(0) == g;
    } else {
      CostOfZeros(g, n - 1);
      assert g + Zeros(n) == (g + Zeros(n - 1)) + [0];
      CountCost(g + Zeros(n - 1), 0);
    }
  }

  lemma GreedyStops(g: seq<nat>, available: seq<nat>, budget: nat, m: nat, i: nat)
    requires i < |available| && |g| == i && Greedy(g, available[..i], budget, m) && budget - Cost(g) < i + 1
    ensures Greedy(g + Zeros(|available| - i), available, budget, m)
    ensures Cost(g + Zeros(|available| - i)) == Cost(g) && Count(g + Zeros(|available| - i)) == Count(g)
  {
    CostOfZeros(g, |available| - i);
    hide Cost, Count;
    var g' := g + Zeros(|available| - i);
    forall k | 0 <= k < |g'|
      ensures g'[k] <= available[k] && (k < m ==> g'[k] == available[k]) && (k > m ==> g'[k] == 0)
    {
      assert k < i ==> g'[k] == g[k] && available[..i][k] == available[k];
    }
  }

  lemma GreedyGoesOn(g: seq<nat>, available: seq<nat>, budget: nat, m: nat, i: nat, n: nat)
    requires i < |available| && |g| == i && Greedy(g, available[..i], budget, m) && budget - Cost(g) >= i + 1
    requires n == if budget - Cost(g) >= (i + 1) * available[i] then available[i] else (budget - Cost(g)) / (i + 1)
    ensures Cost(g + [n]) == Cost(g) + (i + 1) * n <= budget && Count(g + [n]) == Count(g) + n
    ensures Greedy(g + [n], available[..i + 1], budget, if budget - Cost(g) >= (i + 1) * available[i] then i + 1 else i)
  {
    CountCost(g, n);
    hide Cost, Count;
    assert m == i;
    if budget - Cost(g) < (i + 1) * available[i] {
      Divides(budget - Cost(g), i + 1, available[i]);
    }
    forall k | 0 <= k < i
      ensures (g + [n])[k] == available[k]
    {
      assert available[..i][k] == available[k];
    }
  }
}
