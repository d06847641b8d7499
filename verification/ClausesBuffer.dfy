/** The ring buffer through which the threads of one solver exchange clauses. */
module ClausesBuffers {
  import opened RingLayout

  class ClausesBuffer {
    const elems: array<nat>
    const nbThreads: nat
    const whenFullRemoveOlder: bool
    var first: nat
    var last: nat
    var queuesize: nat
    var lastOfThread: seq<nat>
    ghost var log: Log
    /** What each thread has been given so far. */
    ghost var delivered: seq<seq<Rec>>

    /** The ring holds the records of the log, and the indices point to them. */
    ghost predicate Placed()
      reads this, elems
    {
      && InRing(elems[..], log) && |log.cursor| == nbThreads
      && Indexed(elems.Length, first, last, queuesize, lastOfThread, log)
    }

    ghost predicate Valid()
      reads this, elems
    {
      && nbThreads >= 2 && |delivered| == nbThreads && Placed() && CountsOk(log) && FrontWaits(log)
      && forall k :: 0 <= k < |log.recs| ==> log.recs[k].origin < nbThreads
    }

    constructor (threads: nat, maxsize: nat, removeOlder: bool)
      requires threads >= 2 && maxsize > 0
      ensures Valid() && fresh(elems) && nbThreads == threads && elems.Length == maxsize && whenFullRemoveOlder == removeOlder
      ensures log.recs == [] && Complete(log, delivered)
    {
      elems := new nat[maxsize](_ => 0);
      nbThreads, whenFullRemoveOlder := threads, removeOlder;
      first, last, queuesize := 0, maxsize - 1, 0;
      lastOfThread := seq(threads, _ => maxsize - 1);
      log := Log([], 0, seq(threads, _ => 0), []);
      delivered := seq(threads, _ => []);
      new;
      IndexSteps(0, 0, maxsize);
    }

    // ---------- removing ----------

    /** The body of the loop in RemoveLastClause. */
    method RemoveOne()
      requires Placed() && log.removed < |log.recs|
      modifies this`last, this`queuesize, this`lastOfThread, this`log
      ensures Placed()
      ensures log == old(log).(removed := old(log).removed + 1, cursor := Raised(old(log).cursor, old(log).removed + 1))
      ensures queuesize < old(queuesize)
    {
      hide InRing, Indexed, Offset, Before, Raised, CursorsOk;
      FrontRecord();
      var size := elems[NextIndex(last, elems.Length)];
      var nextlast := AddIndex(last, size + HEADER_SIZE, elems.Length);
      ghost var log0 := log;
      MoveReaders(nextlast);
      StepOver(size + HEADER_SIZE, Offset(log.recs, log.removed));
      log := log.(removed := log.removed + 1, cursor := Raised(log.cursor, log.removed + 1));
      RemovedOne(log0, old(last), old(queuesize), old(lastOfThread));
    }

    /** What RemoveOne reads of the front record. */
    lemma FrontRecord()
      requires Placed() && log.removed < |log.recs|
      ensures 0 <= NextIndex(last, elems.Length) < elems.Length && |lastOfThread| == nbThreads && elems.Length > 0
      ensures var r := log.recs[log.removed];
              && elems[NextIndex(last, elems.Length)] == |r.lits| && Length(r) <= queuesize
              && AddIndex(last, Length(r), elems.Length) == Before(Offset(log.recs, log.removed + 1), elems.Length)
      ensures last == Before(Offset(log.recs, log.removed), elems.Length)
      ensures Offset(log.recs, log.removed + 1) == Offset(log.recs, log.removed) + Length(log.recs[log.removed])
    {
      RecordIndices(log, elems.Length, log.removed);
      ReadHeader(elems[..], log, log.removed);
      RecordFits(log.recs, log.removed, elems.Length, log.removed);
    }

    lemma RemovedOne(log0: Log, last0: nat, queuesize0: nat, lastOfThread0: seq<nat>)
      requires InRing(elems[..], log0) && |log0.cursor| == nbThreads && log0.removed < |log0.recs|
      requires Indexed(elems.Length, first, last0, queuesize0, lastOfThread0, log0)
      requires |lastOfThread| == |lastOfThread0|
      requires forall i :: 0 <= i < |lastOfThread| ==>
                 lastOfThread[i] == if lastOfThread0[i] == last0 then Before(Offset(log0.recs, log0.removed + 1), elems.Length) else lastOfThread0[i]
      requires last == Before(Offset(log0.recs, log0.removed + 1), elems.Length)
      requires queuesize == queuesize0 - Length(log0.recs[log0.removed])
      requires log == log0.(removed := log0.removed + 1, cursor := Raised(log0.cursor, log0.removed + 1))
      ensures Placed()
    {
      DropFirst(elems[..], elems.Length, first, last0, queuesize0, lastOfThread0, lastOfThread, log0);
    }

    /** Moves the front over a record, one cell at a time. */
    method StepOver(n: nat, ghost off: nat)
      requires elems.Length > 0 && last == Before(off, elems.Length) && n <= queuesize
      modifies this`last, this`queuesize
      ensures last == Before(off + n, elems.Length) && queuesize == old(queuesize) - n
    {
      var i := 0;
      while i < n
        invariant i <= n && last == Before(off + i, elems.Length)
        invariant queuesize == old(queuesize) - i
      {
        IndexSteps(off + i, 0, elems.Length);
        BeforeNext(off + i, elems.Length);
        last := NextIndex(last, elems.Length);
        queuesize := queuesize - 1;
        i := i + 1;
      }
    }

    /** Readers at the front move on with it. */
    method MoveReaders(nextlast: nat)
      requires |lastOfThread| == nbThreads
      modifies this`lastOfThread
      ensures |lastOfThread| == nbThreads
      ensures forall i :: 0 <= i < nbThreads ==> lastOfThread[i] == if old(lastOfThread)[i] == last then nextlast else old(lastOfThread)[i]
    {
      var i := 0;
      while i < nbThreads
        invariant i <= nbThreads == |lastOfThread|
        invariant forall j :: 0 <= j < nbThreads ==>
                    lastOfThread[j] == if j < i && old(lastOfThread)[j] == last then nextlast else old(lastOfThread)[j]
      {
        if lastOfThread[i] == last {
          lastOfThread := lastOfThread[i := nextlast];
        }
        i := i + 1;
      }
    }

    /** The front record leaves together with those behind it that nobody waits for. */
    method RemoveLastClause()
      requires Placed() && log.removed < |log.recs|
      modifies this`last, this`queuesize, this`lastOfThread, this`log
      ensures Placed() && log == Dropped(old(log)) && queuesize < old(queuesize)
    {
      hide InRing, Indexed, Placed, Raised, AddIndex;
      WaitingAfter();
      RemoveOne();
      NextCounter();
      while queuesize > 0 && elems[AddIndex(last, 2, elems.Length)] == 0
        invariant Placed() && old(log).removed < log.removed <= |log.recs| && queuesize < old(queuesize)
        invariant |log.unseen| == |log.recs| && (queuesize == 0 <==> log.removed == |log.recs|)
        invariant queuesize > 0 ==> 0 <= AddIndex(last, 2, elems.Length) < elems.Length
        invariant queuesize > 0 ==> elems[AddIndex(last, 2, elems.Length)] == log.unseen[log.removed]
        invariant log == old(log).(removed := log.removed, cursor := Raised(old(log).cursor, log.removed))
        invariant FirstWaiting(old(log).unseen, old(log).removed + 1) == FirstWaiting(log.unseen, log.removed)
      {
        RaisedTwice(old(log).cursor, log.removed, log.removed + 1);
        RemoveOne();
        NextCounter();
      }
    }

    lemma WaitingAfter()
      requires Placed()
      ensures |log.unseen| == |log.recs|
    {
    }

    /** What the loop condition of RemoveLastClause reads. */
    lemma NextCounter()
      requires Placed()
      ensures queuesize == 0 <==> log.removed == |log.recs|
      ensures queuesize > 0 ==> 0 <= AddIndex(last, 2, elems.Length) < elems.Length
      ensures queuesize > 0 ==> elems[AddIndex(last, 2, elems.Length)] == log.unseen[log.removed]
    {
      OffsetMonotone(log.recs, log.removed, |log.recs|);
      if log.removed < |log.recs| {
        RecordIndices(log, elems.Length, log.removed);
        ReadHeader(elems[..], log, log.removed);
      }
    }

    // ---------- pushing ----------

    method NoCheckPush(x: nat)
      requires first < elems.Length
      modifies this`first, elems
      ensures elems[..] == old(elems[..])[old(first) := x] && first == NextIndex(old(first), elems.Length)
    {
      elems[first] := x;
      first := NextIndex(first, elems.Length);
    }

    /** Forgets old clauses. */
    method MakeRoom()
      requires Valid() && queuesize > 0
      modifies this`last, this`queuesize, this`lastOfThread, this`log
      ensures Valid() && queuesize < old(queuesize)
      ensures log == Dropped(old(log))
    {
      hide InRing;
      NextCounter();
      ghost var log0 := log;
      RemoveLastClause();
      RaisedCounts(log0, log.removed);
    }

    /** Writes the record of a clause, for which there is room. */
    method WriteClause(threadId: nat, c: seq<nat>)
      requires Valid() && threadId < nbThreads && queuesize + |c| + HEADER_SIZE < elems.Length
      modifies this`first, this`queuesize, this`log, elems
      ensures Valid() && log == Pushed(old(log), Rec(threadId, c), nbThreads - 1)
    {
      hide InRing, Indexed, Partly, CountsOk, Offset;
      ghost var e0, r := elems[..], Rec(threadId, c);
      ghost var words := Words(r, nbThreads - 1);
      Room();
      StartWriting(e0, log, words, first);
      PushChecked(|c|, e0, words, 0);
      PushChecked(if nbThreads > 1 then nbThreads - 1 else 1, e0, words, 1);
      PushChecked(threadId, e0, words, 2);
      var i := 0;
      while i < |c|
        invariant log == old(log) && queuesize == old(queuesize)
        invariant i <= |c| && Partly(e0, elems[..], log, words, HEADER_SIZE + i, first)
      {
        PushChecked(c[i], e0, words, HEADER_SIZE + i);
        i := i + 1;
      }
      EndWriting(e0, elems[..], old(first), first, last, queuesize, lastOfThread, log, r, nbThreads - 1);
      PushedCounts(log, r);
      queuesize := queuesize + |c| + HEADER_SIZE;
      log := Pushed(log, r, nbThreads - 1);
    }

    lemma Room()
      requires Placed()
      ensures elems.Length > 0 && log.removed <= |log.recs| && CursorsOk(log)
      ensures queuesize == Offset(log.recs, |log.recs|) - Offset(log.recs, log.removed)
      ensures first == Offset(log.recs, |log.recs|) % elems.Length
    {
    }

    lemma StillCrowded(n: nat)
      requires Placed() && queuesize > 0 && queuesize + n >= elems.Length
      ensures log.removed < |log.recs| == |log.unseen| && Freed(log, n, elems.Length) == Freed(Dropped(log), n, elems.Length)
    {
      NextCounter();
    }

    lemma NotCrowded(n: nat)
      requires Placed() && queuesize + n < elems.Length
      ensures Freed(log, n, elems.Length) == log
    {
    }

    /** Writes the next word of a record. */
    method PushChecked(x: nat, ghost e0: seq<nat>, ghost words: seq<nat>, ghost n: nat)
      requires log.removed <= |log.recs| && Partly(e0, elems[..], log, words, n, first) && n < |words| && words[n] == x
      requires Offset(log.recs, |log.recs|) - Offset(log.recs, log.removed) + |words| < elems.Length
      modifies this`first, elems
      ensures Partly(e0, elems[..], log, words, n + 1, first)
    {
      PushWord(e0, elems[..], log, words, n, first);
      hide Partly;
      NoCheckPush(x);
    }

    lemma StartWriting(e0: seq<nat>, log: Log, words: seq<nat>, first: nat)
      requires |e0| > 0 && log.removed <= |log.recs| && first == Offset(log.recs, |log.recs|) % |e0|
      ensures Partly(e0, e0, log, words, 0, first)
    {
    }

    /** What pushing does to the pending records. */
    lemma PushFacts(log0: Log, log1: Log, r: Rec)
      requires CursorsOk(log0) && |log0.cursor| == nbThreads >= 2 && log0.removed <= log1.removed <= |log0.recs|
      requires log1 == log0.(removed := log1.removed, cursor := Raised(log0.cursor, log1.removed))
      requires log == Pushed(log1, r, nbThreads - 1)
      ensures CursorsOk(log) && |log.cursor| == nbThreads
      ensures forall i :: 0 <= i < nbThreads ==> Suffix(Pending(log, i), Pending(log0, i) + Foreign([r], i))
      ensures log1 == log0 ==> forall i :: 0 <= i < nbThreads ==> Pending(log, i) == Pending(log0, i) + Foreign([r], i)
      ensures log1 == log0 && Complete(log0, delivered) ==> Complete(log, delivered)
    {
      hide Pending, Suffix, Foreign, Complete;
      forall i | 0 <= i < nbThreads
        ensures Suffix(Pending(log, i), Pending(log0, i) + Foreign([r], i))
        ensures log1 == log0 ==> Pending(log, i) == Pending(log0, i) + Foreign([r], i)
      {
        PushedSuffix(log0, log1.removed, r, nbThreads - 1, i);
        PushedPending(log0, r, nbThreads - 1, i);
      }
      if log1 == log0 && Complete(log0, delivered) {
        PushedComplete(log0, r, nbThreads - 1, delivered);
      }
    }

    /** Adds clause c of a thread. A full buffer refuses it, or makes room by forgetting old clauses. */
    method PushClause(threadId: nat, c: seq<nat>) returns (ok: bool)
      requires Valid() && threadId < nbThreads
      requires whenFullRemoveOlder ==> |c| + HEADER_SIZE < elems.Length
      modifies this`first, this`last, this`queuesize, this`lastOfThread, this`log, elems
      ensures Valid()
      ensures ok <==> whenFullRemoveOlder || old(queuesize) + |c| + HEADER_SIZE < elems.Length
      ensures !ok ==> log == old(log)
      ensures ok ==> log == Pushed(Freed(old(log), |c| + HEADER_SIZE, elems.Length), Rec(threadId, c), nbThreads - 1)
      ensures ok ==> log.recs == old(log).recs + [Rec(threadId, c)]
      ensures old(queuesize) + |c| + HEADER_SIZE < elems.Length ==>
                forall i :: 0 <= i < nbThreads ==> Pending(log, i) == Pending(old(log), i) + Foreign([Rec(threadId, c)], i)
      ensures ok ==> forall i :: 0 <= i < nbThreads ==>
                Suffix(Pending(log, i), Pending(old(log), i) + Foreign([Rec(threadId, c)], i))
      ensures delivered == old(delivered)
      ensures Complete(old(log), old(delivered)) && (!whenFullRemoveOlder || old(queuesize) + |c| + HEADER_SIZE < elems.Length) ==> Complete(log, delivered)
    {
      hide InRing, Indexed, CountsOk, Pending, Foreign, Suffix, Offset, Freed;
      if !whenFullRemoveOlder && queuesize + |c| + HEADER_SIZE >= elems.Length {
        return false;
      }
      Room();
      RaisedNone(log);
      while queuesize + |c| + HEADER_SIZE >= elems.Length
        invariant Valid() && first == old(first) && elems[..] == old(elems[..])
        invariant log.removed >= old(log).removed
        invariant log == old(log).(removed := log.removed, cursor := Raised(old(log).cursor, log.removed))
        invariant old(queuesize) + |c| + HEADER_SIZE < elems.Length ==> log == old(log) && queuesize == old(queuesize)
        invariant Freed(log, |c| + HEADER_SIZE, elems.Length) == Freed(old(log), |c| + HEADER_SIZE, elems.Length)
        decreases queuesize
      {
        StillCrowded(|c| + HEADER_SIZE);
        ghost var removed := log.removed;
        MakeRoom();
        RaisedTwice(old(log).cursor, removed, log.removed);
      }
      Room();
      NotCrowded(|c| + HEADER_SIZE);
      WriteClause(threadId, c);
      ok := true;
      PushFacts(old(log), old(log).(removed := log.removed, cursor := log.cursor), Rec(threadId, c));
    }

    // ---------- receiving ----------

    /** Pops the word after an index. */
    method NoCheckPop(index: nat) returns (index': nat, ret: nat)
      requires NextIndex(index, elems.Length) < elems.Length
      ensures index' == NextIndex(index, elems.Length) && ret == elems[index']
    {
      index' := NextIndex(index, elems.Length);
      ret := elems[index'];
    }

    /** What a reader at the place before record k sees. */
    lemma PlaceFacts(k: nat, place: nat)
      requires Placed() && log.removed <= k <= |log.recs| && place == Before(Offset(log.recs, k), elems.Length)
      ensures NextIndex(place, elems.Length) == first <==> k == |log.recs|
      ensures k < |log.recs| ==> !(place < last < first) && !(first < place < last) && !(last < first < place)
      ensures k < |log.recs| ==>
                && NextIndex(place, elems.Length) < elems.Length && elems[NextIndex(place, elems.Length)] == |log.recs[k].lits|
                && 0 <= AddIndex(place, 3, elems.Length) < elems.Length && elems[AddIndex(place, 3, elems.Length)] == log.recs[k].origin
                && AddIndex(place, Length(log.recs[k]), elems.Length) == Before(Offset(log.recs, k + 1), elems.Length)
    {
      AtEnd(log, elems.Length, k);
      if k < |log.recs| {
        NeverBehind(log, elems.Length, k, first, last, place);
        RecordIndices(log, elems.Length, k);
        ReadHeader(elems[..], log, k);
      }
    }

    /** Where a thread stands. */
    lemma ReaderFacts(i: nat)
      requires Placed() && i < nbThreads
      ensures |lastOfThread| == |log.cursor| == nbThreads && log.removed <= log.cursor[i] <= |log.recs| && elems.Length > 0
      ensures lastOfThread[i] == Before(Offset(log.recs, log.cursor[i]), elems.Length)
    {
    }

    /** Finds the first record of another thread, from the place before record start on. */
    method SkipOwn(threadId: nat, start: nat, ghost from: nat) returns (thislast: nat, ghost k: nat)
      requires Placed() && threadId < nbThreads
      requires log.removed <= from <= |log.recs| && start == Before(Offset(log.recs, from), elems.Length)
      ensures from <= k <= |log.recs| && thislast == Before(Offset(log.recs, k), elems.Length)
      ensures forall j :: from <= j < k ==> log.recs[j].origin == threadId
      ensures k < |log.recs| ==> log.recs[k].origin != threadId
      ensures NextIndex(thislast, elems.Length) == first <==> k == |log.recs|
      ensures NextIndex(thislast, elems.Length) == first
              || (0 <= AddIndex(thislast, 3, elems.Length) < elems.Length && elems[AddIndex(thislast, 3, elems.Length)] != threadId)
    {
      hide Placed, Offset, Before, NextIndex, AddIndex;
      thislast, k := start, from;
      ReaderFacts(threadId);
      PlaceFacts(k, thislast);
      while NextIndex(thislast, elems.Length) != first && elems[AddIndex(thislast, 3, elems.Length)] == threadId
        invariant from <= k <= |log.recs| && thislast == Before(Offset(log.recs, k), elems.Length)
        invariant NextIndex(thislast, elems.Length) == first <==> k == |log.recs|
        invariant k < |log.recs| ==>
                    && 0 <= AddIndex(thislast, 3, elems.Length) < elems.Length
                    && elems[AddIndex(thislast, 3, elems.Length)] == log.recs[k].origin
        invariant forall j :: from <= j < k ==> log.recs[j].origin == threadId
        decreases |log.recs| - k
      {
        PlaceFacts(k, thislast);
        thislast := AddIndex(thislast, elems[NextIndex(thislast, elems.Length)] + HEADER_SIZE, elems.Length);
        k := k + 1;
        PlaceFacts(k, thislast);
      }
    }

    /** Counts one more reader of record k and copies the record. */
    method ReadRecord(place: nat, ghost k: nat)
      returns (removeAfter: bool, threadOrigin: nat, resultClause: seq<nat>, thislast: nat)
      requires Placed() && log.removed <= k < |log.recs| && place == Before(Offset(log.recs, k), elems.Length)
      requires |log.unseen| == |log.recs| && log.unseen[k] > 0
      modifies this`log, elems
      ensures Placed() && log == old(log).(unseen := old(log).unseen[k := old(log).unseen[k] - 1])
      ensures removeAfter <==> log.unseen[k] == 0
      ensures Rec(threadOrigin, resultClause) == log.recs[k]
      ensures thislast == Before(Offset(log.recs, k + 1), elems.Length)
    {
      hide InRing, Indexed, Offset, Before, At;
      RecordCells(k, place);
      var csize;
      thislast, csize := NoCheckPop(place);
      removeAfter := CountReader(AddIndex(thislast, 1, elems.Length), k);
      RecordCells(k, place);
      thislast := NextIndex(thislast, elems.Length);
      thislast, threadOrigin := NoCheckPop(thislast);
      resultClause, thislast := CopyLiterals(csize, thislast, k);
    }

    /** Pops the literals of record k. */
    method CopyLiterals(csize: nat, start: nat, ghost k: nat) returns (resultClause: seq<nat>, thislast: nat)
      requires Placed() && log.removed <= k < |log.recs| && csize == |log.recs[k].lits|
      requires elems.Length > 0 && start == Before(Offset(log.recs, k) + 3, elems.Length)
      ensures resultClause == log.recs[k].lits
      ensures thislast == Before(Offset(log.recs, k + 1), elems.Length)
    {
      hide InRing, Indexed, Before, NextIndex;
      resultClause, thislast := [], start;
      var i := 0;
      while i < csize
        invariant i <= csize && thislast == Before(Offset(log.recs, k) + 3 + i, elems.Length)
        invariant resultClause == log.recs[k].lits[..i]
      {
        LiteralCell(k, i);
        var lit;
        thislast, lit := NoCheckPop(thislast);
        resultClause := resultClause + [lit];
        i := i + 1;
      }
    }

    /** Where the header of record k lies. */
    lemma RecordCells(k: nat, place: nat)
      requires Placed() && log.removed <= k < |log.recs| == |log.unseen| && place == Before(Offset(log.recs, k), elems.Length)
      ensures var off, m := Offset(log.recs, k), elems.Length;
              && m > 0 && off % m < m && (off + 1) % m < m
              && NextIndex(place, m) == off % m && elems[off % m] == |log.recs[k].lits|
              && AddIndex(off % m, 1, m) == (off + 1) % m == NextIndex(off % m, m) && elems[(off + 1) % m] == log.unseen[k]
              && NextIndex((off + 1) % m, m) < m && elems[NextIndex((off + 1) % m, m)] == log.recs[k].origin
              && NextIndex((off + 1) % m, m) == Before(off + 3, m)
              && Offset(log.recs, k + 1) == off + Length(log.recs[k])
    {
      var off := Offset(log.recs, k);
      RecordIndices(log, elems.Length, k);
      ReadHeader(elems[..], log, k);
      IndexSteps(off, 1, elems.Length);
      IndexSteps(off + 1, 1, elems.Length);
      BeforeNext(off + 2, elems.Length);
      RecordFits(log.recs, k, elems.Length, log.removed);
    }

    /** Where literal i of record k lies. */
    lemma LiteralCell(k: nat, i: nat)
      requires Placed() && log.removed <= k < |log.recs| && i < |log.recs[k].lits|
      ensures var x, m := Offset(log.recs, k) + 3 + i, elems.Length;
              && m > 0 && NextIndex(Before(x, m), m) < m && elems[NextIndex(Before(x, m), m)] == log.recs[k].lits[i]
              && NextIndex(Before(x, m), m) == Before(x + 1, m)
    {
      var x := Offset(log.recs, k) + 3 + i;
      ReadHeader(elems[..], log, k);
      assert At(elems[..], x) == log.recs[k].lits[i];
      IndexSteps(x, 0, elems.Length);
      BeforeNext(x, elems.Length);
    }

    method CountReader(cell: nat, ghost k: nat) returns (removeAfter: bool)
      requires Placed() && log.removed <= k < |log.recs| == |log.unseen| && log.unseen[k] > 0
      requires cell < elems.Length && cell == (Offset(log.recs, k) + 1) % elems.Length && elems[cell] == log.unseen[k]
      modifies this`log, elems
      ensures Placed() && log == old(log).(unseen := old(log).unseen[k := old(log).unseen[k] - 1])
      ensures removeAfter <==> log.unseen[k] == 0
    {
      hide InRing, Offset;
      ghost var e := elems[..];
      elems[cell] := elems[cell] - 1;
      assert elems[..] == e[cell := log.unseen[k] - 1];
      CountDown(e, log, k, log.unseen[k] - 1);
      log := log.(unseen := log.unseen[k := log.unseen[k] - 1]);
      removeAfter := elems[cell] == 0;
    }

    lemma NothingHere(i: nat)
      requires Valid() && i < nbThreads && log.cursor[i] == |log.recs|
      ensures Pending(log, i) == []
    {
      NothingReceived(log, i);
    }

    method MoveToEnd(threadId: nat, thislast: nat)
      requires Valid() && threadId < nbThreads && thislast == Before(Offset(log.recs, |log.recs|), elems.Length)
      requires forall j :: log.cursor[threadId] <= j < |log.recs| ==> log.recs[j].origin == threadId
      modifies this`lastOfThread, this`log
      ensures Valid() && log.recs == old(log).recs
      ensures Pending(old(log), threadId) == [] == Pending(log, threadId)
      ensures forall j :: 0 <= j < nbThreads && j != threadId ==> Pending(log, j) == Pending(old(log), j)
    {
      hide InRing, Indexed, Offset, Before, CountsOk, Pending;
      ReaderFacts(threadId);
      Room();
      NothingReceived(log, threadId);
      MoveCursor(elems.Length, first, last, queuesize, lastOfThread, log, threadId, |log.recs|);
      RingKeepsCursors(elems[..], log, log.cursor[threadId := |log.recs|]);
      lastOfThread := lastOfThread[threadId := thislast];
      log := log.(cursor := log.cursor[threadId := |log.recs|]);
    }

    /** Delivers record k to a thread; the ring gives up its front record once everybody has it. */
    method Receive(threadId: nat, place: nat, ghost k: nat) returns (threadOrigin: nat, resultClause: seq<nat>)
      requires Valid() && threadId < nbThreads && log.cursor[threadId] <= k < |log.recs| && log.recs[k].origin != threadId
      requires place == Before(Offset(log.recs, k), elems.Length)
      requires forall j :: log.cursor[threadId] <= j < k ==> log.recs[j].origin == threadId
      modifies this`last, this`queuesize, this`lastOfThread, this`log, elems
      ensures Valid() && log.recs == old(log).recs
      ensures Rec(threadOrigin, resultClause) == log.recs[k]
      ensures Pending(old(log), threadId) == [log.recs[k]] + Pending(log, threadId)
      ensures forall j :: 0 <= j < nbThreads && j != threadId ==> Pending(log, j) == Pending(old(log), j)
    {
      hide InRing, Indexed, Offset, Before, CountsOk, Pending, Received, Dropped;
      ReaderFacts(threadId);
      Room();
      ReceivedOne(log, threadId, k);
      AtFront(k, place);
      var removeAfter, thislast;
      removeAfter, threadOrigin, resultClause, thislast := ReadRecord(place, k);
      if last == place && removeAfter {
        TakenAtFront(old(log), threadId);
        RemoveLastClause();
        thislast := last;
        ReaderFacts(threadId);
        FrontIsLast();
        assert lastOfThread[threadId := thislast] == lastOfThread;
        lastOfThread := lastOfThread[threadId := thislast];
      } else {
        TakenElsewhere(old(log), threadId, k);
        MoveCursor(elems.Length, first, last, queuesize, lastOfThread, log, threadId, k + 1);
        RingKeepsCursors(elems[..], log, log.cursor[threadId := k + 1]);
        lastOfThread := lastOfThread[threadId := thislast];
        log := log.(cursor := log.cursor[threadId := k + 1]);
      }
    }

    lemma AtFront(k: nat, place: nat)
      requires Placed() && log.removed <= k < |log.recs| && place == Before(Offset(log.recs, k), elems.Length)
      ensures last == place <==> k == log.removed
    {
      SamePlace(log, elems.Length, log.removed, k);
    }

    lemma FrontIsLast()
      requires Placed()
      ensures last == Before(Offset(log.recs, log.removed), elems.Length)
    {
    }

    /** The next clause of another thread, if there is one. */
    method GetClause(threadId: nat) returns (ok: bool, threadOrigin: nat, resultClause: seq<nat>)
      requires Valid() && threadId < nbThreads
      modifies this, elems
      ensures Valid() && log.recs == old(log).recs
      ensures ok <==> Pending(old(log), threadId) != []
      ensures ok ==> Pending(old(log), threadId) == [Rec(threadOrigin, resultClause)] + Pending(log, threadId)
      ensures ok ==> threadOrigin != threadId
      ensures !ok ==> Pending(log, threadId) == []
      ensures forall j :: 0 <= j < nbThreads && j != threadId ==> Pending(log, j) == Pending(old(log), j)
      ensures Complete(old(log), old(delivered)) ==> Complete(log, delivered)
      ensures delivered ==
                if ok then old(delivered)[threadId := old(delivered)[threadId] + [Rec(threadOrigin, resultClause)]] else old(delivered)
    {
      hide InRing, Indexed, Offset, Before, CountsOk, Pending, NextIndex;
      threadOrigin, resultClause := 0, [];
      ReaderFacts(threadId);
      var thislast := lastOfThread[threadId];
      ghost var from := log.cursor[threadId];
      PlaceFacts(from, thislast);
      if NextIndex(thislast, elems.Length) == first {
        NothingHere(threadId);
        return false, 0, [];
      }
      if (thislast < last < first) || (first < thislast < last) || (last < first < thislast) {
        thislast := last;
      }
      ghost var k;
      thislast, k := SkipOwn(threadId, thislast, from);
      PlaceFacts(k, thislast);
      if NextIndex(thislast, elems.Length) == first {
        MoveToEnd(threadId, thislast);
        return false, 0, [];
      }
      threadOrigin, resultClause := Receive(threadId, thislast, k);
      delivered := delivered[threadId := delivered[threadId] + [Rec(threadOrigin, resultClause)]];
      ok := true;
    }
  }
}
