/** The ring buffer of shared clauses: how records lie in the ring, and what each thread still
    has to receive. */
module RingLayout {

  /** A clause with the thread that pushed it. */
  datatype Rec = Rec(origin: nat, lits: seq<nat>)

  /** size, nbSeen and thread id come before the literals. */
  const HEADER_SIZE: nat := 3

  function Length(r: Rec): nat {
    HEADER_SIZE + |r.lits|
  }

  /** Where record k starts, counted without wrapping around. */
  ghost function Offset(recs: seq<Rec>, k: nat): nat
    requires k <= |recs|
  {
    if k == 0 then 0 else Offset(recs, k - 1) + Length(recs[k - 1])
  }

  lemma {:induction false} OffsetMonotone(recs: seq<Rec>, j: nat, k: nat)
    requires j <= k <= |recs|
    ensures Offset(recs, j) + HEADER_SIZE * (k - j) <= Offset(recs, k)
  {
    if j < k {
      OffsetMonotone(recs, j, k - 1);
    }
  }

  lemma {:induction false} OffsetOfPrefix(recs: seq<Rec>, r: Rec, k: nat)
    requires k <= |recs|
    ensures Offset(recs + [r], k) == Offset(recs, k)
  {
    if k > 0 {
      OffsetOfPrefix(recs, r, k - 1);
    }
  }

  /** The index before offset x in a ring of m cells. */
  ghost function Before(x: nat, m: nat): nat
    requires m > 0
  {
    (x + m - 1) % m
  }

  function NextIndex(i: nat, m: nat): nat {
    if i + 1 == m then 0 else i + 1
  }

  function AddIndex(i: nat, a: nat, m: nat): int {
    if i + a >= m then i + a - m else i + a
  }

  lemma ModStep(x: nat, a: nat, m: nat)
    requires m > 0 && a < m
    ensures (x + a) % m == if x % m + a >= m then x % m + a - m else x % m + a
  {
    var q, r := x / m, x % m;
    assert x == q * m + r;
    if r + a >= m {
      ModUnique(x + a, q + 1, r + a - m, m);
    } else {
      ModUnique(x + a, q, r + a, m);
    }
  }

  lemma ModUnique(x: nat, q: nat, r: nat, m: nat)
    requires m > 0 && r < m && x == q * m + r
    ensures x % m == r
  {
    var q', r' := x / m, x % m;
    assert x == q' * m + r';
    if q < q' {
      MulStep(q + 1, q', m);
    } else if q' < q {
      MulStep(q' + 1, q, m);
    }
  }

  lemma MulStep(a: nat, b: nat, m: nat)
    requires a <= b
    ensures a * m <= b * m
    ensures a > 0 ==> a * m == (a - 1) * m + m
  {
  }

  lemma IndexSteps(x: nat, a: nat, m: nat)
    requires m > 0 && a < m
    ensures Before(x, m) < m && x % m < m
    ensures AddIndex(x % m, a, m) == (x + a) % m
    ensures AddIndex(Before(x, m), a, m) == Before(x + a, m)
    ensures NextIndex(Before(x, m), m) == x % m
    ensures NextIndex(x % m, m) == (x + 1) % m
  {
    ModStep(x, a, m);
    ModStep(x + m - 1, a, m);
    assert x + m - 1 + a == x + a + m - 1;
    if m > 1 {
      ModStep(x + m - 1, 1, m);
      ModStep(x, 1, m);
    }
    Wrap(x, m);
  }

  lemma Wrap(x: nat, m: nat)
    requires m > 0
    ensures (x + m) % m == x % m
  {
    assert x == (x / m) * m + x % m;
    MulStep(x / m + 1, x / m + 1, m);
    ModUnique(x + m, x / m + 1, x % m, m);
  }

  /** Offsets less than a ring apart have different indices. */
  lemma DistinctIndices(x: nat, y: nat, m: nat)
    requires m > 0 && x < y < x + m
    ensures x % m != y % m && Before(x, m) != Before(y, m)
  {
    ModStep(x, y - x, m);
    ModStep(x + m - 1, y - x, m);
    assert x + m - 1 + (y - x) == y + m - 1;
  }

  // ---------- records in the ring ----------

  /** The cell at an offset. */
  ghost function At(elems: seq<nat>, x: nat): nat
    requires |elems| > 0
  {
    elems[x % |elems|]
  }

  /** The words of a record. */
  function Words(r: Rec, n: nat): seq<nat> {
    [|r.lits|, n, r.origin] + r.lits
  }

  /** Record r starts at offset off; n is the number of threads that still have to see it. */
  ghost predicate Holds(elems: seq<nat>, off: nat, r: Rec, n: nat)
    requires |elems| > 0
  {
    forall j :: 0 <= j < Length(r) ==> At(elems, off + j) == Words(r, n)[j]
  }

  /** All records that were ever accepted, of which the first `removed` have left the ring; for
      each thread the record it looks at next; for each record how many threads still have to
      see it. */
  datatype Log = Log(recs: seq<Rec>, removed: nat, cursor: seq<nat>, unseen: seq<nat>)

  ghost predicate InRing(elems: seq<nat>, log: Log) {
    && |elems| > 0 && |log.unseen| == |log.recs| && log.removed <= |log.recs|
    && Offset(log.recs, |log.recs|) - Offset(log.recs, log.removed) < |elems|
    && forall k :: log.removed <= k < |log.recs| ==> Holds(elems, Offset(log.recs, k), log.recs[k], log.unseen[k])
  }

  ghost predicate CursorsOk(log: Log) {
    forall i :: 0 <= i < |log.cursor| ==> log.removed <= log.cursor[i] <= |log.recs|
  }

  // ---------- who still has to see a record ----------

  /** The number of threads other than origin whose cursor is not past record k. */
  ghost function Behind(cursor: seq<nat>, origin: nat, k: nat): nat {
    if cursor == [] then 0
    else Behind(cursor[..|cursor| - 1], origin, k) +
         if |cursor| - 1 != origin && cursor[|cursor| - 1] <= k then 1 else 0
  }

  /** The counter of every record in the ring is the number of threads that still have to see it. */
  ghost predicate CountsOk(log: Log) {
    |log.unseen| == |log.recs| &&
    forall k :: log.removed <= k < |log.recs| ==> log.unseen[k] == Behind(log.cursor, log.recs[k].origin, k)
  }

  lemma {:induction false} BehindUpdate(cursor: seq<nat>, origin: nat, k: nat, i: nat, c: nat)
    requires i < |cursor|
    ensures Behind(cursor[i := c], origin, k) ==
              Behind(cursor, origin, k) - (if i != origin && cursor[i] <= k then 1 else 0) + (if i != origin && c <= k then 1 else 0)
    decreases |cursor|
  {
    var last := |cursor| - 1;
    if i < last {
      BehindUpdate(cursor[..last], origin, k, i, c);
      assert cursor[i := c][..last] == cursor[..last][i := c];
    } else {
      assert cursor[i := c][..last] == cursor[..last];
    }
  }

  lemma {:induction false} BehindSome(cursor: seq<nat>, origin: nat, k: nat, i: nat)
    requires i < |cursor| && i != origin && cursor[i] <= k
    ensures Behind(cursor, origin, k) > 0
    decreases |cursor|
  {
    if i < |cursor| - 1 {
      BehindSome(cursor[..|cursor| - 1], origin, k, i);
    }
  }

  /** Cursors that move without passing k leave its count alone. */
  lemma {:induction false} BehindSame(cursor: seq<nat>, cursor': seq<nat>, origin: nat, k: nat)
    requires |cursor'| == |cursor|
    requires forall i :: 0 <= i < |cursor| && i != origin ==> (cursor[i] <= k <==> cursor'[i] <= k)
    ensures Behind(cursor', origin, k) == Behind(cursor, origin, k)
    decreases |cursor|
  {
    if cursor != [] {
      BehindSame(cursor[..|cursor| - 1], cursor'[..|cursor| - 1], origin, k);
    }
  }

  /** A record that nobody has seen is counted once for each other thread. */
  lemma {:induction false} BehindAll(cursor: seq<nat>, origin: nat, k: nat)
    requires forall i :: 0 <= i < |cursor| ==> cursor[i] <= k
    ensures Behind(cursor, origin, k) == if origin < |cursor| then |cursor| - 1 else |cursor|
    decreases |cursor|
  {
    if cursor != [] {
      BehindAll(cursor[..|cursor| - 1], origin, k);
    }
  }

  // ---------- what a thread still has to receive ----------

  /** The records of other threads, in order. */
  ghost function Foreign(recs: seq<Rec>, i: nat): seq<Rec> {
    if recs == [] then []
    else Foreign(recs[..|recs| - 1], i) + if recs[|recs| - 1].origin == i then [] else [recs[|recs| - 1]]
  }

  ghost function Pending(log: Log, i: nat): seq<Rec>
    requires i < |log.cursor| && log.cursor[i] <= |log.recs|
  {
    Foreign(log.recs[log.cursor[i]..], i)
  }

  lemma {:induction false} ForeignConcat(a: seq<Rec>, b: seq<Rec>, i: nat)
    ensures Foreign(a + b, i) == Foreign(a, i) + Foreign(b, i)
    decreases |b|
  {
    if b == [] {
      assert a + b == a;
    } else {
      assert (a + b)[..|a + b| - 1] == a + b[..|b| - 1];
      ForeignConcat(a, b[..|b| - 1], i);
    }
  }

  lemma {:induction false} ForeignNone(recs: seq<Rec>, i: nat)
    requires forall k :: 0 <= k < |recs| ==> recs[k].origin == i
    ensures Foreign(recs, i) == []
  {
    if recs != [] {
      ForeignNone(recs[..|recs| - 1], i);
    }
  }

  /** Own records are skipped, the first foreign one is next. */
  lemma NextForeign(log: Log, i: nat, k: nat)
    requires i < |log.cursor| && log.cursor[i] <= k < |log.recs| && log.recs[k].origin != i
    requires forall j :: log.cursor[i] <= j < k ==> log.recs[j].origin == i
    ensures Pending(log, i) == [log.recs[k]] + Foreign(log.recs[k + 1..], i)
  {
    var own, rest := log.recs[log.cursor[i]..k], log.recs[k + 1..];
    assert log.recs[log.cursor[i]..] == own + ([log.recs[k]] + rest);
    ForeignConcat(own, [log.recs[k]] + rest, i);
    ForeignConcat([log.recs[k]], rest, i);
    ForeignNone(own, i);
    assert [log.recs[k]][..0] == [];
  }

  lemma NothingForeign(log: Log, i: nat, k: nat)
    requires i < |log.cursor| && log.cursor[i] <= k <= |log.recs|
    requires forall j :: log.cursor[i] <= j < k ==> log.recs[j].origin == i
    ensures Pending(log, i) == Foreign(log.recs[k..], i)
  {
    assert log.recs[log.cursor[i]..] == log.recs[log.cursor[i]..k] + log.recs[k..];
    ForeignConcat(log.recs[log.cursor[i]..k], log.recs[k..], i);
    ForeignNone(log.recs[log.cursor[i]..k], i);
  }

  lemma PendingMore(log: Log, r: Rec, i: nat)
    requires i < |log.cursor| && log.cursor[i] <= |log.recs|
    ensures Foreign((log.recs + [r])[log.cursor[i]..], i) == Pending(log, i) + if r.origin == i then [] else [r]
  {
    assert (log.recs + [r])[log.cursor[i]..] == log.recs[log.cursor[i]..] + [r];
    ForeignConcat(log.recs[log.cursor[i]..], [r], i);
    assert [r][..0] == [];
  }

  // ---------- reading and writing ----------

  lemma WriteOne(e: seq<nat>, x: nat, v: nat)
    requires |e| > 0
    ensures At(e[x % |e| := v], x) == v
    ensures forall y: nat :: x - |e| < y < x ==> At(e[x % |e| := v], y) == At(e, y)
    ensures forall y: nat :: x < y < x + |e| ==> At(e[x % |e| := v], y) == At(e, y)
  {
    forall y: nat | x - |e| < y < x
      ensures At(e[x % |e| := v], y) == At(e, y)
    {
      DistinctIndices(y, x, |e|);
    }
    forall y: nat | x < y < x + |e|
      ensures At(e[x % |e| := v], y) == At(e, y)
    {
      DistinctIndices(x, y, |e|);
    }
  }

  /** A record fits between its own offset and the next one. */
  lemma RecordFits(recs: seq<Rec>, k: nat, m: nat, removed: nat)
    requires removed <= k < |recs| && Offset(recs, |recs|) - Offset(recs, removed) < m
    ensures Offset(recs, k + 1) == Offset(recs, k) + Length(recs[k])
    ensures Offset(recs, removed) <= Offset(recs, k) && Offset(recs, k + 1) <= Offset(recs, |recs|)
    ensures Length(recs[k]) < m
  {
    OffsetMonotone(recs, removed, k);
    OffsetMonotone(recs, k + 1, |recs|);
  }

  /** What the header of a record in the ring says. */
  lemma ReadHeader(elems: seq<nat>, log: Log, k: nat)
    requires InRing(elems, log) && log.removed <= k < |log.recs|
    ensures var off := Offset(log.recs, k);
            && At(elems, off) == |log.recs[k].lits| && At(elems, off + 1) == log.unseen[k] && At(elems, off + 2) == log.recs[k].origin
            && forall j :: 0 <= j < |log.recs[k].lits| ==> At(elems, off + 3 + j) == log.recs[k].lits[j]
  {
    var off, r := Offset(log.recs, k), log.recs[k];
    assert Holds(elems, off, r, log.unseen[k]);
    assert At(elems, off + 0) == Words(r, log.unseen[k])[0];
    assert At(elems, off + 1) == Words(r, log.unseen[k])[1];
    assert At(elems, off + 2) == Words(r, log.unseen[k])[2];
    forall j | 0 <= j < |r.lits|
      ensures At(elems, off + 3 + j) == r.lits[j]
    {
      assert At(elems, off + (3 + j)) == Words(r, log.unseen[k])[3 + j];
    }
  }

  /** Cells between two offsets keep their contents, so do the records there. */
  lemma SameRecords(e: seq<nat>, e': seq<nat>, log: Log)
    requires InRing(e, log) && |e'| == |e|
    requires forall y: nat :: Offset(log.recs, log.removed) <= y < Offset(log.recs, |log.recs|) ==> At(e', y) == At(e, y)
    ensures InRing(e', log)
  {
    forall k | log.removed <= k < |log.recs|
      ensures Holds(e', Offset(log.recs, k), log.recs[k], log.unseen[k])
    {
      RecordFits(log.recs, k, |e|, log.removed);
      assert Holds(e, Offset(log.recs, k), log.recs[k], log.unseen[k]);
    }
  }

  /** A new record behind the others. */
  lemma AppendRecord(e: seq<nat>, log: Log, r: Rec, n: nat)
    requires InRing(e, log) && Offset(log.recs, |log.recs|) - Offset(log.recs, log.removed) + Length(r) < |e|
    requires Holds(e, Offset(log.recs, |log.recs|), r, n)
    ensures InRing(e, log.(recs := log.recs + [r], unseen := log.unseen + [n]))
    ensures Offset(log.recs + [r], |log.recs| + 1) == Offset(log.recs, |log.recs|) + Length(r)
    ensures forall k :: 0 <= k <= |log.recs| ==> Offset(log.recs + [r], k) == Offset(log.recs, k)
  {
    var log' := log.(recs := log.recs + [r], unseen := log.unseen + [n]);
    forall k | 0 <= k <= |log.recs|
      ensures Offset(log'.recs, k) == Offset(log.recs, k)
    {
      OffsetOfPrefix(log.recs, r, k);
    }
    forall k | log.removed <= k < |log'.recs|
      ensures Holds(e, Offset(log'.recs, k), log'.recs[k], log'.unseen[k])
    {
      assert k < |log.recs| ==> Holds(e, Offset(log.recs, k), log.recs[k], log.unseen[k]);
    }
  }

  /** A record away from the cell written keeps its words. */
  lemma HoldsElsewhere(e: seq<nat>, off: nat, r: Rec, n: nat, x: nat, v: nat)
    requires |e| > 0 && Holds(e, off, r, n)
    requires x < off || off + Length(r) <= x
    requires off + Length(r) <= x + |e| && x < off + |e|
    ensures Holds(e[x % |e| := v], off, r, n)
  {
    WriteOne(e, x, v);
    forall j | 0 <= j < Length(r)
      ensures At(e[x % |e| := v], off + j) == Words(r, n)[j]
    {
      assert At(e, off + j) == Words(r, n)[j];
    }
  }

  /** Writing its counter changes nothing else of a record. */
  lemma HoldsCounted(e: seq<nat>, off: nat, r: Rec, n: nat, v: nat)
    requires Length(r) < |e| && Holds(e, off, r, n)
    ensures Holds(e[(off + 1) % |e| := v], off, r, v)
  {
    WriteOne(e, off + 1, v);
    forall j | 0 <= j < Length(r)
      ensures At(e[(off + 1) % |e| := v], off + j) == Words(r, v)[j]
    {
      assert At(e, off + j) == Words(r, n)[j];
      var y: nat := off + j;
      assert j != 1 ==> y != off + 1;
    }
  }

  /** Records of the ring do not overlap. */
  lemma Apart(recs: seq<Rec>, removed: nat, j: nat, k: nat, m: nat)
    requires removed <= j < |recs| && removed <= k < |recs| && j != k
    requires Offset(recs, |recs|) - Offset(recs, removed) < m
    ensures Offset(recs, k) + 1 < Offset(recs, j) || Offset(recs, j) + Length(recs[j]) <= Offset(recs, k)
    ensures Offset(recs, j) + Length(recs[j]) <= Offset(recs, k) + m && Offset(recs, k) + 1 < Offset(recs, j) + m
  {
    hide Offset;
    RecordFits(recs, j, m, removed);
    RecordFits(recs, k, m, removed);
    if j < k {
      OffsetMonotone(recs, j + 1, k);
    } else {
      OffsetMonotone(recs, k + 1, j);
    }
  }

  /** Counting a record down. */
  lemma CountDown(e: seq<nat>, log: Log, k: nat, n: nat)
    requires InRing(e, log) && log.removed <= k < |log.recs|
    ensures InRing(e[(Offset(log.recs, k) + 1) % |e| := n], log.(unseen := log.unseen[k := n]))
  {
    hide Holds, Offset, Length;
    var x := Offset(log.recs, k) + 1;
    var unseen' := log.unseen[k := n];
    RecordFits(log.recs, k, |e|, log.removed);
    forall j | log.removed <= j < |log.recs|
      ensures Holds(e[x % |e| := n], Offset(log.recs, j), log.recs[j], unseen'[j])
    {
      assert Holds(e, Offset(log.recs, j), log.recs[j], log.unseen[j]);
      if j == k {
        HoldsCounted(e, Offset(log.recs, j), log.recs[j], log.unseen[j], n);
      } else {
        Apart(log.recs, log.removed, j, k, |e|);
        HoldsElsewhere(e, Offset(log.recs, j), log.recs[j], log.unseen[j], x, n);
      }
    }
  }

  // ---------- the indices of the implementation ----------

  /** How the indices describe the log, in a ring of m cells. */
  ghost predicate Indexed(m: nat, first: nat, last: nat, queuesize: nat, lastOf: seq<nat>, log: Log) {
    && m > 0 && log.removed <= |log.recs| && CursorsOk(log) && |lastOf| == |log.cursor|
    && queuesize == Offset(log.recs, |log.recs|) - Offset(log.recs, log.removed) < m
    && first == Offset(log.recs, |log.recs|) % m
    && last == Before(Offset(log.recs, log.removed), m)
    && forall i :: 0 <= i < |lastOf| ==> lastOf[i] == Before(Offset(log.recs, log.cursor[i]), m)
  }

  /** Two places in the log have the same index only if they are the same place. */
  lemma SamePlace(log: Log, m: nat, j: nat, k: nat)
    requires m > 0 && log.removed <= j <= k <= |log.recs|
    requires Offset(log.recs, |log.recs|) - Offset(log.recs, log.removed) < m
    ensures Before(Offset(log.recs, j), m) == Before(Offset(log.recs, k), m) <==> j == k
    ensures Offset(log.recs, log.removed) <= Offset(log.recs, j) <= Offset(log.recs, k) <= Offset(log.recs, |log.recs|)
  {
    OffsetMonotone(log.recs, log.removed, j);
    OffsetMonotone(log.recs, j, k);
    OffsetMonotone(log.recs, k, |log.recs|);
    if j < k {
      DistinctIndices(Offset(log.recs, j), Offset(log.recs, k), m);
    }
  }

  /** The place before a record leads to its words and to the place before the next record. */
  lemma RecordIndices(log: Log, m: nat, k: nat)
    requires log.removed <= k < |log.recs| && Offset(log.recs, |log.recs|) - Offset(log.recs, log.removed) < m
    ensures Length(log.recs[k]) < m
    ensures var off, p := Offset(log.recs, k), Before(Offset(log.recs, k), m);
            && p < m && NextIndex(p, m) == off % m && AddIndex(p, 2, m) == (off + 1) % m && AddIndex(p, 3, m) == (off + 2) % m
            && AddIndex(p, Length(log.recs[k]), m) == Before(Offset(log.recs, k + 1), m)
  {
    var off := Offset(log.recs, k);
    RecordFits(log.recs, k, m, log.removed);
    IndexSteps(off, Length(log.recs[k]), m);
    BeforeNext(off + 1, m);
    BeforeNext(off + 2, m);
    IndexSteps(off, 2, m);
    IndexSteps(off, 3, m);
  }

  lemma BeforeNext(x: nat, m: nat)
    requires m > 0
    ensures Before(x + 1, m) == x % m
  {
    Wrap(x, m);
  }

  /** A place is at the end of the queue exactly when the next index is where writing goes on. */
  lemma AtEnd(log: Log, m: nat, k: nat)
    requires m > 0 && log.removed <= k <= |log.recs|
    requires Offset(log.recs, |log.recs|) - Offset(log.recs, log.removed) < m
    ensures NextIndex(Before(Offset(log.recs, k), m), m) == Offset(log.recs, |log.recs|) % m <==> k == |log.recs|
  {
    SamePlace(log, m, k, |log.recs|);
    IndexSteps(Offset(log.recs, k), 0, m);
    if k < |log.recs| {
      OffsetMonotone(log.recs, k, |log.recs|);
      DistinctIndices(Offset(log.recs, k), Offset(log.recs, |log.recs|), m);
    }
  }

  /** A place of the log that is not at the end never looks as if the queue had moved past it. */
  lemma NeverBehind(log: Log, m: nat, k: nat, first: nat, last: nat, place: nat)
    requires m > 0 && log.removed <= k < |log.recs|
    requires Offset(log.recs, |log.recs|) - Offset(log.recs, log.removed) < m
    requires first == Offset(log.recs, |log.recs|) % m && last == Before(Offset(log.recs, log.removed), m)
    requires place == Before(Offset(log.recs, k), m)
    ensures !(place < last < first) && !(first < place < last) && !(last < first < place)
  {
    SamePlace(log, m, k, |log.recs|);
    var r, d, q := Offset(log.recs, log.removed), Offset(log.recs, k), Offset(log.recs, |log.recs|);
    IndexSteps(r, d - r, m);
    IndexSteps(r, q - r, m);
    IndexSteps(q, 0, m);
  }

  // ---------- removing from the front ----------

  /** No cursor stays before record c. */
  function Raised(cursor: seq<nat>, c: nat): (r: seq<nat>)
    ensures |r| == |cursor|
  {
    seq(|cursor|, i requires 0 <= i < |cursor| => if cursor[i] < c then c else cursor[i])
  }

  /** The first record from k on that some thread still has to see. */
  function FirstWaiting(unseen: seq<nat>, k: nat): (w: nat)
    requires k <= |unseen|
    ensures k <= w <= |unseen| && (w < |unseen| ==> unseen[w] != 0)
    ensures forall j :: k <= j < w ==> unseen[j] == 0
    decreases |unseen| - k
  {
    if k == |unseen| || unseen[k] != 0 then k else FirstWaiting(unseen, k + 1)
  }

  /** The front record leaves, and with it those that nobody waits for any more. */
  function Dropped(log: Log): Log
    requires log.removed < |log.recs| == |log.unseen|
  {
    var w := FirstWaiting(log.unseen, log.removed + 1);
    log.(removed := w, cursor := Raised(log.cursor, w))
  }

  /** The words from the front record on and n more do not fit into a ring of m words. */
  ghost predicate Crowded(log: Log, n: nat, m: nat) {
    log.removed <= |log.recs| && Offset(log.recs, |log.recs|) - Offset(log.recs, log.removed) + n >= m
  }

  /** The front is given up until n more words fit into a ring of m words. */
  ghost function Freed(log: Log, n: nat, m: nat): Log
    decreases |log.recs| - log.removed
  {
    if log.removed < |log.recs| == |log.unseen| && Crowded(log, n, m) then Freed(Dropped(log), n, m) else log
  }

  /** As little as possible is given up: a record goes only if the words do not fit with it and
      those behind it, or if nobody waits for it. */
  lemma {:induction false} FreedLeast(log: Log, n: nat, m: nat, k: nat)
    requires |log.recs| == |log.unseen| && log.removed <= k < Freed(log, n, m).removed
    ensures k < |log.recs| && (Crowded(log.(removed := k), n, m) || log.unseen[k] == 0)
    decreases |log.recs| - log.removed
  {
    var w := Dropped(log).removed;
    if k >= w {
      FreedLeast(Dropped(log), n, m, k);
    }
  }

  lemma RaisedTwice(cursor: seq<nat>, a: nat, b: nat)
    requires a <= b
    ensures Raised(Raised(cursor, a), b) == Raised(cursor, b)
  {
  }

  lemma RaisedNone(log: Log)
    requires CursorsOk(log)
    ensures Raised(log.cursor, log.removed) == log.cursor
  {
  }

  lemma DropFirst(e: seq<nat>, m: nat, first: nat, last: nat, queuesize: nat, lastOf: seq<nat>, lastOf': seq<nat>, log: Log)
    requires InRing(e, log) && |e| == m && Indexed(m, first, last, queuesize, lastOf, log) && log.removed < |log.recs|
    requires |lastOf'| == |lastOf|
    requires forall i :: 0 <= i < |lastOf| ==>
               lastOf'[i] == if lastOf[i] == last then Before(Offset(log.recs, log.removed + 1), m) else lastOf[i]
    ensures var log' := log.(removed := log.removed + 1, cursor := Raised(log.cursor, log.removed + 1));
            && InRing(e, log') && queuesize >= Length(log.recs[log.removed])
            && Indexed(m, first, Before(Offset(log.recs, log.removed + 1), m), queuesize - Length(log.recs[log.removed]), lastOf', log')
  {
    hide Holds, Offset, Before, Length;
    var log' := log.(removed := log.removed + 1, cursor := Raised(log.cursor, log.removed + 1));
    RecordFits(log.recs, log.removed, m, log.removed);
    forall i | 0 <= i < |lastOf|
      ensures lastOf'[i] == Before(Offset(log'.recs, log'.cursor[i]), m)
    {
      SamePlace(log, m, log.removed, log.cursor[i]);
    }
  }

  /** A cursor that is raised past records which count no reader skips records of its own only. */
  lemma SkipsOwn(log: Log, i: nat, c: nat)
    requires CountsOk(log) && CursorsOk(log) && i < |log.cursor| && log.cursor[i] <= c <= |log.recs|
    requires forall j :: log.cursor[i] <= j < c ==> log.unseen[j] == 0
    ensures Pending(log, i) == Foreign(log.recs[c..], i)
  {
    forall j | log.cursor[i] <= j < c
      ensures log.recs[j].origin == i
    {
      if log.recs[j].origin != i {
        BehindSome(log.cursor, log.recs[j].origin, j, i);
      }
    }
    NothingForeign(log, i, c);
  }

  // ---------- writing a record ----------

  /** The first n words of a new record are written behind the log, which is as in e0. */
  ghost predicate Partly(e0: seq<nat>, e: seq<nat>, log: Log, words: seq<nat>, n: nat, first: nat)
    requires log.removed <= |log.recs|
  {
    && |e| == |e0| > 0 && n <= |words|
    && first == (Offset(log.recs, |log.recs|) + n) % |e|
    && (forall y: nat :: Offset(log.recs, log.removed) <= y < Offset(log.recs, |log.recs|) ==> At(e, y) == At(e0, y))
    && (forall j :: 0 <= j < n ==> At(e, Offset(log.recs, |log.recs|) + j) == words[j])
  }

  lemma PushWord(e0: seq<nat>, e: seq<nat>, log: Log, words: seq<nat>, n: nat, first: nat)
    requires log.removed <= |log.recs| && Partly(e0, e, log, words, n, first) && n < |words|
    requires Offset(log.recs, |log.recs|) - Offset(log.recs, log.removed) + |words| < |e|
    ensures first < |e|
    ensures Partly(e0, e[first := words[n]], log, words, n + 1, NextIndex(first, |e|))
  {
    var x := Offset(log.recs, |log.recs|) + n;
    OffsetMonotone(log.recs, log.removed, |log.recs|);
    WriteOne(e, x, words[n]);
    IndexSteps(x, 0, |e|);
  }

  /** The complete record is one of the log. */
  lemma Written(e0: seq<nat>, e: seq<nat>, log: Log, r: Rec, n: nat, first: nat)
    requires InRing(e0, log) && Partly(e0, e, log, Words(r, n), Length(r), first)
    requires Offset(log.recs, |log.recs|) - Offset(log.recs, log.removed) + Length(r) < |e|
    ensures InRing(e, Pushed(log, r, n))
    ensures Offset(log.recs + [r], |log.recs| + 1) == Offset(log.recs, |log.recs|) + Length(r)
    ensures forall k :: 0 <= k <= |log.recs| ==> Offset(log.recs + [r], k) == Offset(log.recs, k)
  {
    SameRecords(e0, e, log);
    AppendRecord(e, log, r, n);
  }

  function Pushed(log: Log, r: Rec, n: nat): Log {
    log.(recs := log.recs + [r], unseen := log.unseen + [n])
  }

  lemma PushedIndexed(m: nat, first: nat, last: nat, queuesize: nat, lastOf: seq<nat>, log: Log, r: Rec, n: nat)
    requires Indexed(m, first, last, queuesize, lastOf, log) && queuesize + Length(r) < m
    requires Offset(log.recs + [r], |log.recs| + 1) == Offset(log.recs, |log.recs|) + Length(r)
    requires forall k :: 0 <= k <= |log.recs| ==> Offset(log.recs + [r], k) == Offset(log.recs, k)
    ensures Indexed(m, (Offset(log.recs, |log.recs|) + Length(r)) % m, last, queuesize + Length(r), lastOf, Pushed(log, r, n))
  {
  }

  /** The ring with the complete new record. */
  lemma EndWriting(e0: seq<nat>, e: seq<nat>, first0: nat, first: nat, last: nat, queuesize: nat, lastOf: seq<nat>,
                   log: Log, r: Rec, n: nat)
    requires InRing(e0, log) && Indexed(|e0|, first0, last, queuesize, lastOf, log) && queuesize + Length(r) < |e0|
    requires Partly(e0, e, log, Words(r, n), Length(r), first)
    ensures InRing(e, Pushed(log, r, n)) && |e| == |e0|
    ensures Indexed(|e|, first, last, queuesize + Length(r), lastOf, Pushed(log, r, n))
  {
    Written(e0, e, log, r, n, first);
    PushedIndexed(|e|, first0, last, queuesize, lastOf, log, r, n);
  }

  lemma PushedCounts(log: Log, r: Rec)
    requires CountsOk(log) && CursorsOk(log) && r.origin < |log.cursor|
    ensures CountsOk(Pushed(log, r, |log.cursor| - 1))
  {
    BehindAll(log.cursor, r.origin, |log.recs|);
  }

  lemma RaisedCounts(log: Log, c: nat)
    requires CountsOk(log) && log.removed <= c <= |log.recs|
    ensures CountsOk(log.(removed := c, cursor := Raised(log.cursor, c)))
  {
    forall k | c <= k < |log.recs|
      ensures log.unseen[k] == Behind(Raised(log.cursor, c), log.recs[k].origin, k)
    {
      BehindSame(log.cursor, Raised(log.cursor, c), log.recs[k].origin, k);
    }
  }

  /** Thread i takes record k, the first one of another thread. */
  function Taken(log: Log, i: nat, k: nat): Log
    requires i < |log.cursor| && k < |log.unseen| && log.unseen[k] > 0
  {
    log.(cursor := log.cursor[i := k + 1], unseen := log.unseen[k := log.unseen[k] - 1])
  }

  lemma TakenCounts(log: Log, i: nat, k: nat)
    requires CountsOk(log) && CursorsOk(log) && i < |log.cursor| && log.cursor[i] <= k < |log.recs|
    requires log.recs[k].origin != i && forall j :: log.cursor[i] <= j < k ==> log.recs[j].origin == i
    ensures log.unseen[k] > 0 && CountsOk(Taken(log, i, k)) && CursorsOk(Taken(log, i, k))
  {
    BehindSome(log.cursor, log.recs[k].origin, k, i);
    forall j | log.removed <= j < |log.recs|
      ensures Taken(log, i, k).unseen[j] == Behind(log.cursor[i := k + 1], log.recs[j].origin, j)
    {
      BehindUpdate(log.cursor, log.recs[j].origin, j, i, k + 1);
    }
  }

  lemma PassedCounts(log: Log, i: nat)
    requires CountsOk(log) && CursorsOk(log) && i < |log.cursor|
    requires forall j :: log.cursor[i] <= j < |log.recs| ==> log.recs[j].origin == i
    ensures CountsOk(log.(cursor := log.cursor[i := |log.recs|]))
  {
    forall j | log.removed <= j < |log.recs|
      ensures log.unseen[j] == Behind(log.cursor[i := |log.recs|], log.recs[j].origin, j)
    {
      BehindUpdate(log.cursor, log.recs[j].origin, j, i, |log.recs|);
    }
  }

  /** The front record of the ring still waits for some thread. */
  ghost predicate FrontWaits(log: Log) {
    |log.unseen| == |log.recs| && (log.removed < |log.recs| ==> log.unseen[log.removed] > 0)
  }

  /** What becomes of the log when thread i receives record k. */
  function Received(log: Log, i: nat, k: nat): Log
    requires i < |log.cursor| && log.removed <= k < |log.unseen| == |log.recs| && log.unseen[k] > 0
  {
    var log' := Taken(log, i, k);
    if k == log.removed && log'.unseen[k] == 0 then Dropped(log') else log'
  }

  /** Thread i gets the first of its pending records; the others have the same to come. */
  lemma ReceivedOne(log: Log, i: nat, k: nat)
    requires CountsOk(log) && CursorsOk(log) && FrontWaits(log)
    requires i < |log.cursor| && log.cursor[i] <= k < |log.recs|
    requires log.recs[k].origin != i && forall j :: log.cursor[i] <= j < k ==> log.recs[j].origin == i
    ensures log.unseen[k] > 0
    ensures var log' := Received(log, i, k);
            && CountsOk(log') && CursorsOk(log') && FrontWaits(log') && log'.recs == log.recs && |log'.cursor| == |log.cursor|
            && Pending(log, i) == [log.recs[k]] + Pending(log', i)
            && forall j :: 0 <= j < |log.cursor| && j != i ==> Pending(log', j) == Pending(log, j)
  {
    TakenCounts(log, i, k);
    NextForeign(log, i, k);
    var log' := Taken(log, i, k);
    assert Pending(log, i) == [log.recs[k]] + Pending(log', i);
    if k == log.removed && log'.unseen[k] == 0 {
      DroppedKeepsPending(log');
    }
  }

  /** Records leave from the front without any thread missing one. */
  lemma DroppedKeepsPending(log: Log)
    requires CountsOk(log) && CursorsOk(log) && log.removed < |log.recs| && log.unseen[log.removed] == 0
    ensures var log' := Dropped(log);
            && CountsOk(log') && CursorsOk(log') && FrontWaits(log') && log'.recs == log.recs && |log'.cursor| == |log.cursor|
            && forall j :: 0 <= j < |log.cursor| ==> Pending(log', j) == Pending(log, j)
  {
    hide Foreign, Behind, Pending;
    DroppedCounts(log);
    forall j | 0 <= j < |log.cursor|
      ensures Pending(Dropped(log), j) == Pending(log, j)
    {
      DroppedKeepsOne(log, j);
    }
  }

  lemma DroppedCounts(log: Log)
    requires CountsOk(log) && CursorsOk(log) && log.removed < |log.recs|
    ensures var log' := Dropped(log);
            CountsOk(log') && CursorsOk(log') && FrontWaits(log') && log'.recs == log.recs && |log'.cursor| == |log.cursor|
  {
    hide Behind;
    RaisedCounts(log, FirstWaiting(log.unseen, log.removed + 1));
  }

  lemma DroppedKeepsOne(log: Log, j: nat)
    requires CountsOk(log) && CursorsOk(log) && log.removed < |log.recs| && log.unseen[log.removed] == 0 && j < |log.cursor|
    ensures Dropped(log).cursor[j] <= |log.recs|
    ensures Pending(Dropped(log), j) == Pending(log, j)
  {
    hide Foreign, Behind;
    var w := FirstWaiting(log.unseen, log.removed + 1);
    if log.cursor[j] < w {
      SkipsOwn(log, j, w);
    }
  }

  /** A thread that finds only records of its own moves to the end. */
  lemma NothingReceived(log: Log, i: nat)
    requires CountsOk(log) && CursorsOk(log) && FrontWaits(log) && i < |log.cursor|
    requires forall j :: log.cursor[i] <= j < |log.recs| ==> log.recs[j].origin == i
    ensures var log' := log.(cursor := log.cursor[i := |log.recs|]);
            && CountsOk(log') && CursorsOk(log') && FrontWaits(log')
            && Pending(log, i) == [] == Pending(log', i)
            && forall j :: 0 <= j < |log.cursor| && j != i ==> Pending(log', j) == Pending(log, j)
  {
    PassedCounts(log, i);
    NothingForeign(log, i, |log.recs|);
  }

  ghost predicate Suffix(a: seq<Rec>, b: seq<Rec>) {
    |a| <= |b| && b[|b| - |a|..] == a
  }

  /** Records forced out of the ring are lost to the threads that had not come to them, and only those. */
  lemma ForcedOut(log: Log, c: nat, i: nat)
    requires CursorsOk(log) && log.removed <= c <= |log.recs| && i < |log.cursor|
    ensures Suffix(Pending(log.(removed := c, cursor := Raised(log.cursor, c)), i), Pending(log, i))
  {
    var from, to := log.cursor[i], Raised(log.cursor, c)[i];
    assert log.recs[from..] == log.recs[from..to] + log.recs[to..];
    ForeignConcat(log.recs[from..to], log.recs[to..], i);
  }

  /** A cursor moves together with its index. */
  lemma MoveCursor(m: nat, first: nat, last: nat, queuesize: nat, lastOf: seq<nat>, log: Log, i: nat, c: nat)
    requires Indexed(m, first, last, queuesize, lastOf, log) && i < |lastOf| && log.removed <= c <= |log.recs|
    ensures Indexed(m, first, last, queuesize, lastOf[i := Before(Offset(log.recs, c), m)], log.(cursor := log.cursor[i := c]))
  {
  }

  /** A reader that took the front record is where raising the cursors puts it. */
  lemma TakenAtFront(log: Log, i: nat)
    requires CursorsOk(log) && i < |log.cursor| && log.cursor[i] == log.removed < |log.recs| == |log.unseen|
    requires log.unseen[log.removed] == 1
    ensures var k := log.removed;
            && Dropped(log.(unseen := log.unseen[k := 0])) == Received(log, i, k)
            && Received(log, i, k).cursor[i] == Received(log, i, k).removed
  {
    var k := log.removed;
    var w := FirstWaiting(log.unseen[k := 0], k + 1);
    assert Raised(log.cursor[i := k + 1], w) == Raised(log.cursor, w);
  }

  lemma TakenElsewhere(log: Log, i: nat, k: nat)
    requires i < |log.cursor| && log.removed <= k < |log.unseen| == |log.recs| && log.unseen[k] > 0
    requires k != log.removed || log.unseen[k] != 1
    ensures Received(log, i, k) == log.(cursor := log.cursor[i := k + 1], unseen := log.unseen[k := log.unseen[k] - 1])
  {
  }

  /** The contents of the ring do not depend on who has read them. */
  lemma RingKeepsCursors(e: seq<nat>, log: Log, cursor: seq<nat>)
    requires InRing(e, log)
    ensures InRing(e, log.(cursor := cursor))
  {
  }

  /** An accepted record is pending for all threads but its own. */
  lemma PushedPending(log: Log, r: Rec, n: nat, i: nat)
    requires CursorsOk(log) && i < |log.cursor|
    ensures Pending(Pushed(log, r, n), i) == Pending(log, i) + Foreign([r], i)
  {
    PendingMore(log, r, i);
    assert [r][..0] == [];
  }

  /** The same after old records were forced out. */
  lemma PushedSuffix(log: Log, c: nat, r: Rec, n: nat, i: nat)
    requires CursorsOk(log) && log.removed <= c <= |log.recs| && i < |log.cursor|
    ensures var log' := Pushed(log.(removed := c, cursor := Raised(log.cursor, c)), r, n);
            CursorsOk(log') && Suffix(Pending(log', i), Pending(log, i) + Foreign([r], i))
  {
    ForcedOut(log, c, i);
    PushedPending(log.(removed := c, cursor := Raised(log.cursor, c)), r, n, i);
  }

  /** Every thread has got, or will get, each accepted record of the others exactly once and in order. */
  ghost predicate Complete(log: Log, delivered: seq<seq<Rec>>)
    requires CursorsOk(log)
  {
    && |delivered| == |log.cursor|
    && forall i :: 0 <= i < |log.cursor| ==> delivered[i] + Pending(log, i) == Foreign(log.recs, i)
  }

  lemma PushedComplete(log: Log, r: Rec, n: nat, delivered: seq<seq<Rec>>)
    requires CursorsOk(log) && Complete(log, delivered)
    ensures CursorsOk(Pushed(log, r, n)) && Complete(Pushed(log, r, n), delivered)
  {
    forall i | 0 <= i < |log.cursor|
      ensures delivered[i] + Pending(Pushed(log, r, n), i) == Foreign(log.recs + [r], i)
    {
      PushedPending(log, r, n, i);
      ForeignConcat(log.recs, [r], i);
    }
  }
}
