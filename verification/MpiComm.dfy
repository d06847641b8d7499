/** The communicator of one process: it exports clauses to other processes and imports theirs. */
module MpiComms {
  import opened ClauseManagers
  import opened ClauseDatabases
  import opened ClauseFilters
  import opened WireFormat

  /** The literals of some clauses. */
  function LitsOf(ids: seq<nat>, all: seq<Exchange>): (r: seq<seq<int>>)
    requires InRange(ids, all)
    ensures |r| == |ids|
  {
    seq(|ids|, k requires 0 <= k < |ids| => all[ids[k]].lits)
  }

  predicate InRange(ids: seq<nat>, all: seq<Exchange>) {
    forall k :: 0 <= k < |ids| ==> ids[k] < |all|
  }

  /** Clauses from other processes. */
  predicate FromOutside(ids: seq<nat>, all: seq<Exchange>)
    requires InRange(ids, all)
  {
    forall k :: 0 <= k < |ids| ==> all[ids[k]].from == -1
  }

  lemma ProperLater(ids: seq<nat>, all: seq<Exchange>, all': seq<Exchange>)
    requires Proper(ids, all) && |all| <= |all'| && all'[..|all|] == all
    ensures Proper(ids, all')
  {
    forall k | 0 <= k < |ids|
      ensures all'[ids[k]].lits != []
    {
      assert all'[ids[k]] == all'[..|all|][ids[k]];
    }
  }

  /** The ranks that rank `rank` exchanges clauses with, among `size` of them in groups of `group`. */
  function LowerRank(rank: nat, group: nat): nat {
    if group == 0 then 0 else rank / group * group
  }

  function UpperRank(rank: nat, size: nat, group: nat): nat {
    if group == 0 then size
    else if rank / group * group + group > size then size else rank / group * group + group
  }

  predicate Exchanges(i: nat, rank: nat, size: nat, group: nat) {
    LowerRank(rank, group) <= i < UpperRank(rank, size, group) && i != rank
  }

  /** Ranks exchange clauses exactly when they are in the same group, so whoever sends to a rank
      also hears from it. */
  lemma GroupsPartition(i: nat, j: nat, size: nat, group: nat)
    requires i < size && j < size && i != j
    ensures Exchanges(i, j, size, group) <==> group == 0 || i / group == j / group
    ensures Exchanges(i, j, size, group) <==> Exchanges(j, i, size, group)
  {
    if group > 0 {
      SameQuotient(i, j, group);
      SameQuotient(j, i, group);
    }
  }

  lemma SameQuotient(i: nat, j: nat, group: nat)
    requires group > 0
    ensures j / group * group <= i < j / group * group + group <==> i / group == j / group
  {
    var a, b := i / group, j / group;
    assert a * group <= i < a * group + group;
    if a < b {
      Scale(a + 1, b, group);
    } else if b < a {
      Scale(b + 1, a, group);
    }
  }

  class MpiComm {
    const m: ClauseManager
    const shrLit: nat
    const exportBuf: array<int>
    const externalFilter: ClauseFilter
    const clausesToExport: ClauseDatabase
    var clausesToImport: seq<nat>
    var rank: nat
    var size: nat
    var clsShrLowerRank: nat
    var clsShrUpperRank: nat

    ghost predicate Valid()
      reads this, m, clausesToExport
    {
      && exportBuf.Length == 2 * shrLit
      && BucketsOk(clausesToExport.clauses, m.clauses)
      && InRange(clausesToImport, m.clauses)
    }

    /** The references that the communicator holds. */
    ghost function Held(): multiset<nat>
      reads this, clausesToExport
    {
      Ids(clausesToExport.clauses) + multiset(clausesToImport)
    }

    constructor (manager: ClauseManager, literals: nat)
      ensures Valid() && m == manager && shrLit == literals && Held() == multiset{}
      ensures fresh(exportBuf) && fresh(externalFilter) && fresh(clausesToExport)
      ensures externalFilter.View() == Filter({}, {}) && clausesToExport.clauses == [] && clausesToImport == []
    {
      m, shrLit := manager, literals;
      exportBuf := new int[2 * literals];
      externalFilter := new ClauseFilter();
      clausesToExport := new ClauseDatabase();
      clausesToImport, rank, size, clsShrLowerRank, clsShrUpperRank := [], 0, 1, 0, 1;
    }

    method Init(rank: nat, size: nat, sharingGroupSize: nat)
      requires rank < size
      modifies this`rank, this`size, this`clsShrLowerRank, this`clsShrUpperRank
      ensures this.rank == rank && this.size == size
      ensures forall i :: clsShrLowerRank <= i < clsShrUpperRank && i != rank <==> i >= 0 && Exchanges(i, rank, size, sharingGroupSize)
    {
      this.rank, this.size := rank, size;
      if sharingGroupSize > 0 {
        clsShrLowerRank := rank / sharingGroupSize * sharingGroupSize;
        clsShrUpperRank := rank / sharingGroupSize * sharingGroupSize + sharingGroupSize;
        clsShrUpperRank := if clsShrUpperRank > size then size else clsShrUpperRank;
      } else {
        clsShrLowerRank, clsShrUpperRank := 0, size;
      }
    }

    /** Offers clauses to other processes; the database takes a reference to each that is new. */
    method AddClausesToExternal(clauses: seq<nat>, ghost rest: multiset<nat>) returns (ghost offered: seq<nat>)
      requires Valid() && m.Owns(Held() + rest) && multiset(clauses) <= rest && Proper(clauses, m.clauses)
      modifies externalFilter, clausesToExport, m`nbRefs, m`freed
      ensures Valid() && m.Owns(Held() + rest)
      ensures Proper(offered, m.clauses) && clausesToExport.clauses == AddedAll(old(clausesToExport.clauses), offered, m.clauses)
      ensures size == 1 ==> offered == [] && externalFilter.View() == old(externalFilter.View())
      ensures size != 1 ==>
                && LitsOf(offered, m.clauses) == Fresh(old(externalFilter.View()), LitsOf(clauses, m.clauses))
                && externalFilter.View() == After(old(externalFilter.View()), LitsOf(clauses, m.clauses))
    {
      hide Counted, BucketsOk, Proper, Ids, After, LitsOf, Known, Registered, Fresh, Added, AddedAll, InRange;
      offered := [];
      NoneYet(clauses, m.clauses, externalFilter.View(), clausesToExport.clauses);
      if size == 1 {
        return;
      }
      var k := 0;
      while k < |clauses|
        invariant k <= |clauses| && Valid() && m.Owns(Held() + rest) && InRange(clauses[..k], m.clauses)
        invariant externalFilter.View() == After(old(externalFilter.View()), LitsOf(clauses[..k], m.clauses))
        invariant Proper(offered, m.clauses) && InRange(offered, m.clauses)
        invariant clausesToExport.clauses == AddedAll(old(clausesToExport.clauses), offered, m.clauses)
        invariant LitsOf(offered, m.clauses) == Fresh(old(externalFilter.View()), LitsOf(clauses[..k], m.clauses))
      {
        Member(clauses, k, rest);
        OneFurther(clauses, k, m.clauses, old(externalFilter.View()));
        var isNew := externalFilter.RegisterClause(m.clauses[clauses[k]].lits);
        if isNew {
          AddedOneMore(old(clausesToExport.clauses), offered, clauses[k], m.clauses);
          OneMoreOffered(offered, clauses[k], m.clauses);
          Offer(clauses[k], rest);
          offered := offered + [clauses[k]];
        }
        k := k + 1;
      }
      assert clauses[..k] == clauses;
    }

    method Offer(c: nat, ghost rest: multiset<nat>)
      requires Valid() && m.Owns(Held() + rest) && c in rest && c < |m.clauses| && m.clauses[c].lits != []
      modifies clausesToExport, m`nbRefs, m`freed
      ensures Valid() && m.Owns(Held() + rest)
      ensures clausesToExport.clauses == Added(old(clausesToExport.clauses), c, |m.clauses[c].lits|)
    {
      hide Counted, BucketsOk, Proper, Ids, Added, HasRoom;
      ghost var held, ids := Held() + rest, Ids(clausesToExport.clauses);
      OneMore(held, c);
      m.IncreaseClause(c, 1, held);
      var kept := clausesToExport.AddClause(m, c, held + multiset{c});
      MoveIn(ids, multiset(clausesToImport), rest, multiset{c});
    }

    /** Hands over the clauses that came from other processes. */
    method GetClausesFromExternal() returns (clauses: seq<nat>)
      requires Valid()
      modifies this`clausesToImport
      ensures Valid() && InRange(clauses, m.clauses) && clauses == old(clausesToImport) && clausesToImport == []
      ensures multiset(clauses) + Held() == old(Held())
    {
      clauses := clausesToImport;
      clausesToImport := [];
    }

    // ---------- sending ----------

    /** Writes the next word of the message. */
    method Write(idx: nat, w: int, ghost words: seq<int>) returns (idx': nat)
      requires 1 <= idx < exportBuf.Length && exportBuf[1..idx] == words
      modifies exportBuf
      ensures idx' == idx + 1 && exportBuf[1..idx'] == words + [w]
    {
      exportBuf[idx] := w;
      idx' := idx + 1;
    }

    /** Writes the selected clauses behind the word for the length. */
    method WriteClauses(clauses: seq<nat>)
      requires Proper(clauses, m.clauses) && |Encoded(LitsOf(clauses, m.clauses))| < exportBuf.Length
      modifies exportBuf
      ensures exportBuf[0] == |Encoded(LitsOf(clauses, m.clauses))|
      ensures exportBuf[1..exportBuf[0] + 1] == Encoded(LitsOf(clauses, m.clauses))
    {
      ghost var all := LitsOf(clauses, m.clauses);
      var idx, k := 1, 0;
      while k < |clauses|
        invariant k <= |clauses| && 1 <= idx <= exportBuf.Length && exportBuf[1..idx] == Encoded(all[..k])
      {
        var lits := m.clauses[clauses[k]].lits;
        PrefixFits(all, k);
        var i := 0;
        while i < |lits|
          invariant i <= |lits| && 1 <= idx <= exportBuf.Length && exportBuf[1..idx] == Encoded(all[..k]) + lits[..i]
        {
          assert Encoded(all[..k]) + lits[..i] + [lits[i]] == Encoded(all[..k]) + lits[..i + 1];
          idx := Write(idx, lits[i], Encoded(all[..k]) + lits[..i]);
          i := i + 1;
        }
        assert lits[..i] == lits;
        idx := Write(idx, 0, Encoded(all[..k]) + lits);
        k := k + 1;
      }
      assert all[..k] == all;
      idx := idx - 1;
      exportBuf[0] := idx;
      assert exportBuf[1..idx + 1] == Encoded(all);
    }

    /** Sends the selected clauses to the ranks of the group; none are lost and all references to
        them are given up. */
    method ExportLearnedClauses(ghost rest: multiset<nat>) returns (sent: bool, ghost selected: seq<nat>)
      requires Valid() && m.Owns(Held() + rest)
      requires shrLit >= BUCKET_LITERALS || clausesToExport.clauses == [] || |clausesToExport.clauses[0]| < shrLit
      modifies clausesToExport, exportBuf, m`nbRefs, m`freed
      ensures Valid() && m.Owns(Held() + rest)
      ensures Proper(selected, m.clauses) && InRange(selected, m.clauses) && multiset(selected) + Held() == old(Held())
      ensures sent <==> selected != []
      ensures sent ==> 0 <= exportBuf[0] < exportBuf.Length
      ensures sent ==> exportBuf[1..exportBuf[0] + 1] == Encoded(LitsOf(selected, m.clauses))
    {
      hide Counted, BucketsOk, Ids, Greedy, LitsOf, Encoded, TotalSize, Lengths, Cost, Count;
      ghost var before := clausesToExport.clauses;
      var tmp, used, selectCount, g, k := clausesToExport.GiveSelection(shrLit, m.clauses);
      selected := tmp;
      assert multiset(tmp) + (Held() + rest) == old(Held()) + rest;
      if tmp == [] {
        assert multiset(tmp) == multiset{} && multiset(tmp) + (Held() + rest) == Held() + rest;
        return false, selected;
      }
      MessageFits(g, before, m.clauses, shrLit, k, tmp);
      WriteClauses(tmp);
      ReleaseAll(m, tmp, Held() + rest);
      sent := true;
    }

    // ---------- receiving ----------

    /** Imports the clauses of a message that the filter does not know. */
    method HandleReceivedClauses(clsBuf: array<int>, ghost rest: multiset<nat>) returns (ghost imported: seq<nat>)
      requires Valid() && m.Owns(Held() + rest)
      requires clsBuf.Length > 0 && 0 <= clsBuf[0] < clsBuf.Length
      modifies this`clausesToImport, externalFilter, m
      ensures Valid() && m.Owns(Held() + rest)
      ensures |old(m.clauses)| <= |m.clauses| && m.clauses[..|old(m.clauses)|] == old(m.clauses)
      ensures clausesToImport == old(clausesToImport) + imported && InRange(imported, m.clauses)
      ensures var cs := Parse(clsBuf[1..clsBuf[0] + 1]).clauses;
              && LitsOf(imported, m.clauses) == Fresh(old(externalFilter.View()), cs)
              && externalFilter.View() == After(old(externalFilter.View()), cs)
      ensures FromOutside(imported, m.clauses)
    {
      hide Counted, BucketsOk, Ids, LitsOf, InRange, FromOutside, Fresh, After, Known, Registered, Parse;
      var length := clsBuf[0];
      var tmp: seq<int> := [];
      var i := 1;
      ghost var cs: seq<seq<int>> := [];
      ghost var f := externalFilter.View();
      imported := [];
      NothingRead(f, m.clauses, clsBuf[1..1]);
      while i <= length
        invariant 1 <= i <= length + 1 && Valid() && m.Owns(Held() + rest)
        invariant |old(m.clauses)| <= |m.clauses| && m.clauses[..|old(m.clauses)|] == old(m.clauses)
        invariant clausesToImport == old(clausesToImport) + imported && InRange(imported, m.clauses)
        invariant Parse(clsBuf[1..i]) == Reading(cs, tmp)
        invariant LitsOf(imported, m.clauses) == Fresh(f, cs) && externalFilter.View() == After(f, cs)
        invariant FromOutside(imported, m.clauses)
      {
        assert clsBuf[1..i + 1] == clsBuf[1..i] + [clsBuf[i]];
        ParseStep(clsBuf[1..i], clsBuf[i]);
        if clsBuf[i] != 0 {
          tmp := tmp + [clsBuf[i]];
        } else {
          FilterStep(f, cs, tmp);
          cs := cs + [tmp];
          imported := Import(tmp, imported, rest);
          tmp := [];
        }
        i := i + 1;
      }
    }

    /** A complete clause of a message. */
    method Import(lits: seq<int>, ghost imported: seq<nat>, ghost rest: multiset<nat>) returns (ghost imported': seq<nat>)
      requires Valid() && m.Owns(Held() + rest) && InRange(imported, m.clauses)
      requires FromOutside(imported, m.clauses)
      modifies this`clausesToImport, externalFilter, m
      ensures Valid() && m.Owns(Held() + rest) && InRange(imported', m.clauses)
      ensures |old(m.clauses)| <= |m.clauses| && m.clauses[..|old(m.clauses)|] == old(m.clauses)
      ensures exists more :: imported' == imported + more && clausesToImport == old(clausesToImport) + more
      ensures LitsOf(imported', m.clauses) == LitsOf(imported, old(m.clauses)) + if Known(old(externalFilter.View()), lits) then [] else [lits]
      ensures externalFilter.View() == Registered(old(externalFilter.View()), lits)
      ensures FromOutside(imported', m.clauses)
    {
      hide Counted, BucketsOk, Ids, Known, Registered;
      var isNew := externalFilter.RegisterClause(lits);
      if !isNew {
        assert imported == imported + [] && clausesToImport == clausesToImport + [];
        return imported;
      }
      ghost var held, all := Held() + rest, m.clauses;
      var cls := m.AllocClause(-1, lits, held);
      MoreClauses(clausesToExport.clauses, all, m.clauses);
      clausesToImport := clausesToImport + [cls];
      imported' := imported + [cls];
      assert Held() + rest == held + multiset{cls};
      assert clausesToImport == old(clausesToImport) + [cls];
    }
  }

  /** The message for a greedy selection fits into the buffer. */
  lemma MessageFits(g: seq<nat>, buckets: seq<seq<nat>>, all: seq<Exchange>, budget: nat, k: nat, selected: seq<nat>)
    requires BucketsOk(buckets, all) && Greedy(g, Lengths(buckets), budget, k)
    requires Proper(selected, all) && InRange(selected, all) && TotalSize(selected, all) == Cost(g) && |selected| == Count(g) > 0
    requires budget >= BUCKET_LITERALS || buckets == [] || |buckets[0]| < budget
    ensures |Encoded(LitsOf(selected, all))| < 2 * budget
  {
    EncodedLength(LitsOf(selected, all));
    LiteralsAreSize(selected, all);
    UnitsAreCheapest(g);
    if budget >= BUCKET_LITERALS {
      FitsFromThousand(g, buckets, all, budget, k);
    } else {
      FitsUnlessAllUnits(g, Lengths(buckets), budget, k);
    }
  }

  lemma {:induction false} LiteralsAreSize(ids: seq<nat>, all: seq<Exchange>)
    requires Proper(ids, all) && InRange(ids, all)
    ensures Literals(LitsOf(ids, all)) == TotalSize(ids, all)
  {
    if ids != [] {
      var n := |ids| - 1;
      LiteralsAreSize(ids[..n], all);
      assert LitsOf(ids, all)[..n] == LitsOf(ids[..n], all);
    }
  }

  lemma NothingRead(f: Filter, all: seq<Exchange>, none: seq<int>)
    requires none == []
    ensures InRange([], all) && FromOutside([], all) && LitsOf([], all) == [] == Fresh(f, []) && After(f, []) == f && Parse(none) == Reading([], [])
  {
  }

  /** Gives up one reference for each element. */
  method ReleaseAll(m: ClauseManager, ids: seq<nat>, ghost rest: multiset<nat>)
    requires m.Owns(multiset(ids) + rest)
    modifies m`nbRefs, m`freed
    ensures m.Owns(rest)
  {
    var k := 0;
    assert ids[0..] == ids;
    while k < |ids|
      invariant k <= |ids| && m.Owns(multiset(ids[k..]) + rest)
    {
      assert ids[k..] == [ids[k]] + ids[k + 1..];
      assert multiset(ids[k..]) + rest - multiset{ids[k]} == multiset(ids[k + 1..]) + rest;
      m.ReleaseClause(ids[k], multiset(ids[k..]) + rest);
      k := k + 1;
    }
    assert ids[k..] == [] && multiset(ids[k..]) + rest == rest;
  }

  lemma OneMore(held: multiset<nat>, c: nat)
    ensures held[c := held[c] + 1] == held + multiset{c} && held + multiset{c} - multiset{c} == held
  {
  }

  lemma MoveIn(a: multiset<nat>, b: multiset<nat>, rest: multiset<nat>, c: multiset<nat>)
    ensures (a + c) + b + rest == (a + b + rest) + c
  {
  }

  lemma OneMoreOffered(offered: seq<nat>, c: nat, all: seq<Exchange>)
    requires InRange(offered, all) && c < |all|
    ensures InRange(offered + [c], all) && LitsOf(offered + [c], all) == LitsOf(offered, all) + [all[c].lits]
  {
  }

  lemma NoneYet(clauses: seq<nat>, all: seq<Exchange>, f: Filter, buckets: seq<seq<nat>>)
    ensures InRange(clauses[..0], all) && After(f, LitsOf(clauses[..0], all)) == f
    ensures InRange([], all) && Proper([], all) && LitsOf([], all) == [] == Fresh(f, LitsOf(clauses[..0], all))
    ensures AddedAll(buckets, [], all) == buckets
  {
  }

  /** The filter after one more clause. */
  lemma OneFurther(clauses: seq<nat>, k: nat, all: seq<Exchange>, f: Filter)
    requires Proper(clauses, all) && k < |clauses|
    ensures clauses[k] < |all| && all[clauses[k]].lits != []
    ensures InRange(clauses[..k], all) && InRange(clauses[..k + 1], all)
    ensures var lits := LitsOf(clauses[..k], all);
            && LitsOf(clauses[..k + 1], all) == lits + [all[clauses[k]].lits]
            && After(f, LitsOf(clauses[..k + 1], all)) == Registered(After(f, lits), all[clauses[k]].lits)
            && Fresh(f, LitsOf(clauses[..k + 1], all)) == Fresh(f, lits) + if Known(After(f, lits), all[clauses[k]].lits) then [] else [all[clauses[k]].lits]
  {
    var lits := LitsOf(clauses[..k], all);
    assert LitsOf(clauses[..k + 1], all) == lits + [all[clauses[k]].lits];
    FilterStep(f, lits, all[clauses[k]].lits);
  }

  lemma Member(clauses: seq<nat>, k: nat, rest: multiset<nat>)
    requires k < |clauses| && multiset(clauses) <= rest
    ensures clauses[k] in rest
  {
    assert clauses[k] in multiset(clauses);
  }

  /** The first clauses of a message leave room for the next one. */
  lemma {:induction false} PrefixFits(all: seq<seq<int>>, k: nat)
    requires k < |all|
    ensures Encoded(all[..k + 1]) == Encoded(all[..k]) + all[k] + [0]
    ensures |Encoded(all[..k])| + |all[k]| + 1 <= |Encoded(all)|
    decreases |all| - k
  {
    assert all[..k + 1][..k] == all[..k];
    if k + 1 < |all| {
      PrefixFits(all, k + 1);
    } else {
      assert all[..k + 1] == all;
    }
  }

  // ---------- a message that does not fit ----------

  /** The unit clauses 1, 2 and so on. */
  function UnitClauses(n: nat): (r: seq<seq<int>>)
    ensures |r| == n && forall i :: 0 <= i < n ==> r[i] == [i + 1]
  {
    seq(n, i => [i + 1])
  }

  /** The filter lets every one of them in. */
  lemma {:induction false} UnitsAreNew(n: nat)
    ensures Fresh(Filter({}, {}), UnitClauses(n)) == UnitClauses(n)
    ensures forall i :: i in After(Filter({}, {}), UnitClauses(n)).unitSet ==> i <= n
  {
    if n > 0 {
      UnitsAreNew(n - 1);
      assert UnitClauses(n)[..n - 1] == UnitClauses(n - 1);
    }
  }

  /** Fewer than 1000 unit clauses all go into the first bucket. */
  lemma {:induction false} UnitsFirstBucket(ids: seq<nat>, all: seq<Exchange>)
    requires Proper(ids, all) && 0 < |ids| < BUCKET_LITERALS && forall k :: 0 <= k < |ids| ==> |all[ids[k]].lits| == 1
    ensures AddedAll([], ids, all) == [ids]
  {
    hide Added;
    var n := |ids| - 1;
    if n > 0 {
      UnitsFirstBucket(ids[..n], all);
    }
    AddedUnit(ids[..n], ids[n]);
    assert ids == ids[..n] + [ids[n]];
  }

  lemma AddedUnit(bucket: seq<nat>, c: nat)
    requires |bucket| + 1 < BUCKET_LITERALS
    ensures Added([bucket], c, 1) == [bucket + [c]]
    ensures bucket == [] ==> Added([], c, 1) == [[c]]
  {
    assert Grown([bucket], 1) == [bucket] && Grown([], 1) == [[]];
    var none: seq<nat> := [];
    assert none + [c] == [c] && Grown([], 1) == [none];
  }

  /** With a budget below 1000 the message for that many different unit clauses is as long as the
      whole buffer, which also has to hold its length. */
  method BufferTooShort(budget: nat) returns (comm: MpiComm, ghost selected: seq<nat>)
    requires 0 < budget < BUCKET_LITERALS
    ensures fresh(comm) && comm.shrLit == budget && comm.Valid() && comm.exportBuf.Length == 2 * budget
    ensures InRange(selected, comm.m.clauses) && |Encoded(LitsOf(selected, comm.m.clauses))| == 2 * budget
  {
    hide Counted, BucketsOk, Ids, Greedy, Fresh, After, Encoded, AddedAll;
    var m := new ClauseManager();
    comm := new MpiComm(m, budget);
    comm.Init(0, 2, 0);
    var ids: seq<nat> := [];
    for i := 0 to budget
      invariant comm.size == 2 && comm.Valid() && comm.m == m && comm.Held() == multiset{} && m.Owns(multiset(ids)) && InRange(ids, m.clauses)
      invariant comm.clausesToExport.clauses == [] && comm.externalFilter.View() == Filter({}, {})
      invariant |ids| == i && LitsOf(ids, m.clauses) == UnitClauses(i)
    {
      ghost var all := m.clauses;
      var c := m.AllocClause(0, [i + 1], multiset(ids));
      MoreClauses(comm.clausesToExport.clauses, all, m.clauses);
      OneMoreUnit(ids, c, all, m.clauses, i);
      ids := ids + [c];
    }
    assert comm.Held() + multiset(ids) == multiset(ids);
    UnitsProper(ids, m.clauses);
    ghost var offered := comm.AddClausesToExternal(ids, multiset(ids));
    UnitsAreNew(budget);
    assert |offered| == |LitsOf(offered, m.clauses)|;
    selected := SelectAll(comm, offered);
  }

  /** Takes a selection, as for a message. */
  method SelectAll(comm: MpiComm, ghost offered: seq<nat>) returns (ghost selected: seq<nat>)
    requires comm.Valid() && 0 < comm.shrLit < BUCKET_LITERALS && |offered| == comm.shrLit
    requires Proper(offered, comm.m.clauses) && InRange(offered, comm.m.clauses) && LitsOf(offered, comm.m.clauses) == UnitClauses(|offered|)
    requires comm.clausesToExport.clauses == AddedAll([], offered, comm.m.clauses)
    modifies comm.clausesToExport
    ensures comm.Valid() && InRange(selected, comm.m.clauses)
    ensures |Encoded(LitsOf(selected, comm.m.clauses))| == 2 * comm.shrLit
  {
    hide BucketsOk, Ids, Greedy, AddedAll, Encoded;
    UnitsProper(offered, comm.m.clauses);
    UnitsFirstBucket(offered, comm.m.clauses);
    ghost var before := comm.clausesToExport.clauses;
    var tmp, used, selectCount, g, k := comm.clausesToExport.GiveSelection(comm.shrLit, comm.m.clauses);
    selected := tmp;
    FullOfUnits(g, before, comm.shrLit, k);
    EncodedLength(LitsOf(selected, comm.m.clauses));
    LiteralsAreSize(selected, comm.m.clauses);
  }

  lemma OneMoreUnit(ids: seq<nat>, c: nat, all: seq<Exchange>, all': seq<Exchange>, i: nat)
    requires InRange(ids, all) && LitsOf(ids, all) == UnitClauses(i) && c == |all| && all' == all + [Exchange(0, [i + 1])]
    ensures InRange(ids + [c], all') && LitsOf(ids + [c], all') == UnitClauses(i + 1)
  {
    assert LitsOf(ids, all') == LitsOf(ids, all);
    OneMoreOffered(ids, c, all');
  }

  lemma UnitsProper(ids: seq<nat>, all: seq<Exchange>)
    requires InRange(ids, all) && LitsOf(ids, all) == UnitClauses(|ids|)
    ensures Proper(ids, all) && forall k :: 0 <= k < |ids| ==> |all[ids[k]].lits| == 1
  {
    forall k | 0 <= k < |ids|
      ensures |all[ids[k]].lits| == 1
    {
      assert LitsOf(ids, all)[k] == UnitClauses(|ids|)[k];
    }
  }
}
