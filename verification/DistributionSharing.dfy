/** One process: its solvers exchange clauses with each other and with other processes. */
module DistributionSharings {
  import opened ClauseManagers
  import opened ClauseDatabases
  import opened ClauseFilters
  import opened WireFormat
  import opened MpiComms

  // ---------- echoes ----------

  /** What a solver has given to the sharer, and what it was given. */
  datatype Event = Exported(lits: seq<int>) | Delivered(lits: seq<int>)

  /** Nothing is delivered that the solver exported or got before. */
  ghost predicate EchoFree(log: seq<Event>) {
    forall a, b :: 0 <= a < b < |log| && log[b].Delivered? ==> log[a].lits != log[b].lits
  }

  ghost predicate AllKnown(log: seq<Event>, f: Filter) {
    forall k :: 0 <= k < |log| ==> Known(f, log[k].lits)
  }

  lemma LogMore(log: seq<Event>, f: Filter, e: Event)
    requires EchoFree(log) && AllKnown(log, f) && (e.Delivered? ==> !Known(f, e.lits))
    ensures EchoFree(log + [e]) && AllKnown(log + [e], Registered(f, e.lits))
  {
    hide Known, Registered;
    RegisteredKnown(f, e.lits);
  }

  /** The clauses of others. */
  function NotFrom(ids: seq<nat>, i: nat, all: seq<Exchange>): (r: seq<nat>)
    requires InRange(ids, all)
    ensures InRange(r, all)
  {
    if ids == [] then []
    else
      var c := ids[|ids| - 1];
      NotFrom(ids[..|ids| - 1], i, all) + if all[c].from == i then [] else [c]
  }

  lemma NotFromStep(ids: seq<nat>, k: nat, i: nat, all: seq<Exchange>)
    requires InRange(ids, all) && k < |ids|
    ensures InRange(ids[..k], all) && InRange(ids[..k + 1], all)
    ensures NotFrom(ids[..k + 1], i, all) == NotFrom(ids[..k], i, all) + if all[ids[k]].from == i then [] else [ids[k]]
  {
    assert ids[..k + 1][..k] == ids[..k];
  }

  // ---------- what a round collects and selects ----------

  /** The filter of a solver, the local filter and the database. */
  datatype Intake = Intake(solver: Filter, local: Filter, buckets: seq<seq<nat>>)

  /** A clause goes into the database if it is new to both filters; the local one is only asked,
      and told, about what is new to the solver's. */
  function Taken(s: Intake, c: nat, lits: seq<int>): Intake
    requires lits != []
  {
    if Known(s.solver, lits) then s.(solver := Registered(s.solver, lits))
    else
      Intake(Registered(s.solver, lits), Registered(s.local, lits),
             if Known(s.local, lits) then s.buckets else Added(s.buckets, c, |lits|))
  }

  function TakenAll(s: Intake, ids: seq<nat>, all: seq<Exchange>): Intake
    requires Proper(ids, all)
  {
    if ids == [] then s
    else
      var c := ids[|ids| - 1];
      Taken(TakenAll(s, ids[..|ids| - 1], all), c, all[c].lits)
  }

  lemma NothingTaken(s: Intake, ids: seq<nat>, all: seq<Exchange>)
    ensures Proper(ids[..0], all) && TakenAll(s, ids[..0], all) == s
  {
  }

  lemma OneMoreTaken(s: Intake, ids: seq<nat>, k: nat, all: seq<Exchange>)
    requires Proper(ids, all) && k < |ids|
    ensures Proper(ids[..k], all) && Proper(ids[..k + 1], all) && all[ids[k]].lits != []
    ensures TakenAll(s, ids[..k + 1], all) == Taken(TakenAll(s, ids[..k], all), ids[k], all[ids[k]].lits)
  {
    assert ids[..k + 1][..k] == ids[..k];
  }

  /** The exports of the first n solvers, one solver after the other. */
  function Drained(s: Intake, fs: seq<Filter>, exports: seq<seq<nat>>, all: seq<Exchange>, n: nat): Intake
    requires n <= |exports| == |fs| && forall i :: 0 <= i < |exports| ==> Proper(exports[i], all)
  {
    if n == 0 then s else TakenAll(Drained(s, fs, exports, all, n - 1).(solver := fs[n - 1]), exports[n - 1], all)
  }

  lemma NothingDrained(s: Intake, fs: seq<Filter>, exports: seq<seq<nat>>, all: seq<Exchange>)
    requires |exports| == |fs| && forall i :: 0 <= i < |exports| ==> Proper(exports[i], all)
    ensures Drained(s, fs, exports, all, 0) == s
  {
  }

  lemma DrainedNext(s: Intake, fs: seq<Filter>, exports: seq<seq<nat>>, all: seq<Exchange>, i: nat)
    requires i < |exports| == |fs| && forall j :: 0 <= j < |exports| ==> Proper(exports[j], all)
    ensures Proper(exports[i], all)
    ensures Drained(s, fs, exports, all, i + 1) == TakenAll(Drained(s, fs, exports, all, i).(solver := fs[i]), exports[i], all)
  {
  }

  /** A greedy selection is taken from the ends of the buckets. */
  ghost predicate Selected(before: seq<seq<nat>>, after: seq<seq<nat>>, selected: seq<nat>, all: seq<Exchange>, budget: nat) {
    && Proper(selected, all) && multiset(selected) + Ids(after) == Ids(before)
    && exists g, k :: Picks(before, after, selected, all, budget, g, k)
  }

  ghost predicate Picks(before: seq<seq<nat>>, after: seq<seq<nat>>, selected: seq<nat>, all: seq<Exchange>, budget: nat, g: seq<nat>, k: nat)
    requires Proper(selected, all)
  {
    && |g| == |before| && Greedy(g, Lengths(before), budget, k) && Shortened(before, after, g)
    && |selected| == Count(g) && TotalSize(selected, all) == Cost(g)
  }

  class DistributionSharing {
    const m: ClauseManager
    const comm: MpiComm
    const localFilter: ClauseFilter
    const database: ClauseDatabase
    const solverFilters: seq<ClauseFilter>
    const literalPerRound: nat
    /** For each solver the clauses that it has produced and those that it has not yet taken in. */
    var toExport: seq<seq<nat>>
    var toImport: seq<seq<nat>>
    ghost var log: seq<seq<Event>>

    ghost predicate Apart() {
      && comm.m == m && comm.clausesToExport != database
      && localFilter != comm.externalFilter && localFilter !in solverFilters && comm.externalFilter !in solverFilters
      && forall i, j :: 0 <= i < j < |solverFilters| ==> solverFilters[i] != solverFilters[j]
    }

    ghost predicate Buffers()
      reads this, m, comm, comm.m, comm.clausesToExport, database
    {
      && comm.Valid() && BucketsOk(database.clauses, m.clauses)
      && |toExport| == |toImport| == |solverFilters|
      && (forall i :: 0 <= i < |toExport| ==> Proper(toExport[i], m.clauses))
      && (forall i :: 0 <= i < |toImport| ==> InRange(toImport[i], m.clauses))
    }

    ghost predicate NoEcho()
      reads this, solverFilters
    {
      && |log| == |solverFilters|
      && forall i :: 0 <= i < |log| ==> EchoFree(log[i]) && AllKnown(log[i], solverFilters[i].View())
    }

    /** All references, except those in local variables. */
    ghost function Held(): multiset<nat>
      reads this, comm, comm.clausesToExport, database
    {
      comm.Held() + Ids(database.clauses) + Ids(toExport) + Ids(toImport)
    }

    /** The state between two steps of a round, when a local variable holds references too. */
    ghost predicate Running(extra: multiset<nat>)
      reads this, m, comm, comm.m, comm.clausesToExport, database, solverFilters
    {
      Apart() && Buffers() && NoEcho() && m.Owns(Held() + extra)
    }

    /** Every clause counts its holders and has been freed when there are none; no solver was ever
        given what it had exported or got before. */
    ghost predicate Valid()
      reads this, m, comm, comm.m, comm.clausesToExport, database, solverFilters
    {
      Running(multiset{})
    }

    constructor (solvers: nat, literals: nat)
      ensures Valid() && |solverFilters| == solvers && literalPerRound == literals && comm.shrLit == literals
      ensures m.clauses == [] && forall i :: 0 <= i < solvers ==> log[i] == []
    {
      var manager := new ClauseManager();
      var communicator := new MpiComm(manager, literals);
      var filters: seq<ClauseFilter> := [];
      while |filters| < solvers
        invariant |filters| <= solvers && manager.clauses == [] && manager.Owns(multiset{})
        invariant communicator.Valid() && communicator.m == manager && communicator.Held() == multiset{} && communicator.shrLit == literals
        invariant communicator.externalFilter !in filters && fresh(communicator.externalFilter)
        invariant forall f :: f in filters ==> fresh(f)
        invariant forall i, j :: 0 <= i < j < |filters| ==> filters[i] != filters[j]
      {
        var f := new ClauseFilter();
        filters := filters + [f];
      }
      m, comm, solverFilters, literalPerRound := manager, communicator, filters, literals;
      localFilter := new ClauseFilter();
      database := new ClauseDatabase();
      toExport, toImport := seq(solvers, _ => []), seq(solvers, _ => []);
      log := seq(solvers, _ => []);
      new;
      NoIds(toExport);
      assert Held() + multiset{} == multiset{};
    }

    // ---------- collecting ----------

    /** What collecting from solver i reads and changes. */
    ghost function State(i: nat): Intake
      requires i < |solverFilters|
      reads solverFilters[i], localFilter, database
    {
      Intake(solverFilters[i].View(), localFilter.View(), database.clauses)
    }

    /** Takes the next exported clause of solver i into the database, or drops it. */
    method CollectOne(i: nat, c: nat, ghost extra: multiset<nat>)
      requires Running(extra + multiset{c}) && i < |solverFilters| && c < |m.clauses| && m.clauses[c].lits != []
      modifies this`log, solverFilters[i], localFilter, database, m`nbRefs, m`freed
      ensures Running(extra)
      ensures log == old(log)[i := old(log)[i] + [Exported(m.clauses[c].lits)]]
      ensures var lits := m.clauses[c].lits;
              var isNew := !Known(old(solverFilters[i].View()), lits) && !Known(old(localFilter.View()), lits);
              && database.clauses == (if isNew then Added(old(database.clauses), c, |lits|) else old(database.clauses))
      ensures State(i) == Taken(old(State(i)), c, m.clauses[c].lits)
    {
      hide Counted, BucketsOk, Proper, InRange, Ids, Known, Registered, EchoFree, AllKnown, Added, HasRoom;
      var lits := m.clauses[c].lits;
      var isNew := RegisterExport(i, lits);
      KeepOrRelease(c, isNew, extra);
    }

    /** The filters learn of an exported clause. */
    method RegisterExport(i: nat, lits: seq<int>) returns (isNew: bool)
      requires Apart() && NoEcho() && i < |solverFilters|
      modifies this`log, solverFilters[i], localFilter
      ensures NoEcho() && log == old(log)[i := old(log)[i] + [Exported(lits)]]
      ensures isNew <==> !Known(old(solverFilters[i].View()), lits) && !Known(old(localFilter.View()), lits)
      ensures solverFilters[i].View() == Registered(old(solverFilters[i].View()), lits)
      ensures localFilter.View() ==
              if Known(old(solverFilters[i].View()), lits) then old(localFilter.View()) else Registered(old(localFilter.View()), lits)
    {
      hide Known, Registered, EchoFree, AllKnown;
      LogMore(log[i], solverFilters[i].View(), Exported(lits));
      isNew := solverFilters[i].RegisterClause(lits);
      log := log[i := log[i] + [Exported(lits)]];
      if isNew {
        isNew := localFilter.RegisterClause(lits);
      }
    }

    /** A new clause goes into the database, another is released. */
    method KeepOrRelease(c: nat, isNew: bool, ghost extra: multiset<nat>)
      requires Apart() && Buffers() && m.Owns(Held() + (extra + multiset{c})) && c < |m.clauses| && m.clauses[c].lits != []
      modifies database, m`nbRefs, m`freed
      ensures Buffers() && m.Owns(Held() + extra)
      ensures database.clauses == if isNew then Added(old(database.clauses), c, |m.clauses[c].lits|) else old(database.clauses)
    {
      hide Counted, BucketsOk, Proper, InRange, Ids, Added, HasRoom;
      ghost var before, rest := Ids(database.clauses), Held() + extra;
      assert Held() + (extra + multiset{c}) == rest + multiset{c};
      Rearranged(comm.Held(), before, Ids(toExport), Ids(toImport), extra, multiset{c});
      if isNew {
        var kept := database.AddClause(m, c, rest + multiset{c});
      } else {
        m.ReleaseClause(c, rest + multiset{c});
      }
    }

    /** Drains the export buffer of solver i. */
    method CollectFrom(i: nat)
      requires Valid() && i < |solverFilters|
      modifies this`log, this`toExport, solverFilters[i], localFilter, database, m`nbRefs, m`freed
      ensures Valid() && toExport == old(toExport)[i := []]
      ensures InRange(old(toExport)[i], m.clauses)
      ensures log == old(log)[i := old(log)[i] + Exports(LitsOf(old(toExport)[i], m.clauses))]
      ensures Proper(old(toExport)[i], m.clauses) && State(i) == TakenAll(old(State(i)), old(toExport)[i], m.clauses)
    {
      hide Running, Exports, LitsOf, InRange, Proper, Added, Known, Taken;
      LogLength(multiset{});
      var tmp := Drain(i);
      var k := 0;
      NothingLogged(tmp, m.clauses, log[i]);
      NothingTaken(old(State(i)), tmp, m.clauses);
      assert tmp[0..] == tmp;
      while k < |tmp|
        invariant toExport == old(toExport)[i := []]
        invariant k <= |tmp| && Running(multiset(tmp[k..])) && InRange(tmp[..k], m.clauses)
        invariant |log| == |old(log)| > i && log == old(log)[i := old(log)[i] + Exports(LitsOf(tmp[..k], m.clauses))]
        invariant Proper(tmp[..k], m.clauses) && State(i) == TakenAll(old(State(i)), tmp[..k], m.clauses)
      {
        OneMoreTaken(old(State(i)), tmp, k, m.clauses);
        assert tmp[k..] == [tmp[k]] + tmp[k + 1..];
        assert multiset(tmp[k..]) == multiset(tmp[k + 1..]) + multiset{tmp[k]};
        OneMoreLogged(tmp, k, m.clauses, old(log)[i]);
        CollectOne(i, tmp[k], multiset(tmp[k + 1..]));
        k := k + 1;
      }
      assert tmp[k..] == [] && tmp[..k] == tmp;
    }

    lemma LogLength(extra: multiset<nat>)
      requires Running(extra)
      ensures |log| == |solverFilters| == |toExport| == |toImport|
      ensures forall i :: 0 <= i < |toExport| ==> Proper(toExport[i], m.clauses)
    {
    }

    method Drain(i: nat) returns (tmp: seq<nat>)
      requires Valid() && i < |solverFilters|
      modifies this`toExport
      ensures tmp == old(toExport)[i] && toExport == old(toExport)[i := []]
      ensures Running(multiset(tmp)) && Proper(tmp, m.clauses)
    {
      hide Counted, BucketsOk, Proper, InRange, Ids, Known, EchoFree, AllKnown;
      IdsUpdate(toExport, i, []);
      Emptied(comm.Held(), Ids(database.clauses), Ids(toExport[i := []]), Ids(toExport), Ids(toImport), multiset(toExport[i]));
      NothingProper(m.clauses);
      assert toExport[i := []][i] == [];
      tmp := toExport[i];
      toExport := toExport[i := []];
    }

    // ---------- delivering ----------

    /** Which clauses of others are new to solver i? */
    method RegisterImports(i: nat, tmp: seq<nat>) returns (clausesToAdd: seq<nat>)
      requires Apart() && NoEcho() && i < |solverFilters| && InRange(tmp, m.clauses)
      modifies this`log, solverFilters[i]
      ensures NoEcho() && InRange(clausesToAdd, m.clauses)
      ensures LitsOf(clausesToAdd, m.clauses) == Fresh(old(solverFilters[i].View()), LitsOf(NotFrom(tmp, i, m.clauses), m.clauses))
      ensures log == old(log)[i := old(log)[i] + Deliveries(LitsOf(clausesToAdd, m.clauses))]
      ensures forall k :: 0 <= k < |clausesToAdd| ==> clausesToAdd[k] in tmp && m.clauses[clausesToAdd[k]].from != i
      ensures solverFilters[i].View() == After(old(solverFilters[i].View()), LitsOf(NotFrom(tmp, i, m.clauses), m.clauses))
    {
      hide NoEcho, Fresh, After, LitsOf, InRange, Deliveries, NotFrom, Known;
      ghost var all, f, log0 := m.clauses, solverFilters[i].View(), log;
      clausesToAdd := [];
      var k := 0;
      LogSize();
      NothingDelivered(tmp, all, f, i, log);
      while k < |tmp|
        invariant k <= |tmp| && NoEcho() && |log| == |log0| > i && InRange(clausesToAdd, all) && InRange(tmp[..k], all)
        invariant LitsOf(clausesToAdd, all) == Fresh(f, LitsOf(NotFrom(tmp[..k], i, all), all))
        invariant solverFilters[i].View() == After(f, LitsOf(NotFrom(tmp[..k], i, all), all))
        invariant log == log0[i := log0[i] + Deliveries(LitsOf(clausesToAdd, all))]
        invariant forall j :: 0 <= j < |clausesToAdd| ==> clausesToAdd[j] in tmp && clausesToAdd[j] < |all| && all[clausesToAdd[j]].from != i
      {
        var cls := tmp[k];
        OneMoreCandidate(tmp, k, i, all, f);
        if m.clauses[cls].from != i {
          var isNew := RegisterImport(i, m.clauses[cls].lits);
          if isNew {
            OneMoreDelivered(clausesToAdd, cls, all, log0[i]);
            clausesToAdd := clausesToAdd + [cls];
          }
        }
        k := k + 1;
      }
      assert tmp[..k] == tmp;
    }

    lemma LogSize()
      requires NoEcho()
      ensures |log| == |solverFilters|
    {
    }

    method RegisterImport(i: nat, lits: seq<int>) returns (isNew: bool)
      requires Apart() && NoEcho() && i < |solverFilters|
      modifies this`log, solverFilters[i]
      ensures NoEcho() && isNew == !Known(old(solverFilters[i].View()), lits)
      ensures solverFilters[i].View() == Registered(old(solverFilters[i].View()), lits)
      ensures log == if isNew then old(log)[i := old(log)[i] + [Delivered(lits)]] else old(log)
    {
      hide Known, Registered, EchoFree, AllKnown;
      if !Known(solverFilters[i].View(), lits) {
        LogMore(log[i], solverFilters[i].View(), Delivered(lits));
      }
      RegisteredKnown(solverFilters[i].View(), lits);
      isNew := solverFilters[i].RegisterClause(lits);
      if isNew {
        log := log[i := log[i] + [Delivered(lits)]];
      }
    }

    /** Gives solver i all clauses of others that it has not seen; each is a reference more. */
    method DeliverTo(i: nat, tmp: seq<nat>) returns (ghost added: seq<nat>)
      requires Running(multiset(tmp)) && i < |solverFilters| && InRange(tmp, m.clauses)
      modifies this`log, this`toImport, solverFilters[i], m`nbRefs
      ensures Running(multiset(tmp)) && InRange(added, m.clauses)
      ensures LitsOf(added, m.clauses) == Fresh(old(solverFilters[i].View()), LitsOf(NotFrom(tmp, i, m.clauses), m.clauses))
      ensures log == old(log)[i := old(log)[i] + Deliveries(LitsOf(added, m.clauses))]
      ensures toImport == old(toImport)[i := old(toImport)[i] + added]
      ensures Served(i, tmp, added, old(log)[i], old(toImport)[i])
    {
      hide Counted, BucketsOk, Ids, NotFrom, LitsOf, Fresh, After, Known, EchoFree, AllKnown, Deliveries;
      KnowsAll(solverFilters[i].View(), tmp, i, m.clauses);
      var clausesToAdd := RegisterImports(i, tmp);
      IncreaseAll(m, clausesToAdd, tmp, Held());
      GrownBy(comm.Held(), Ids(database.clauses), Ids(toExport), toImport, i, clausesToAdd, multiset(tmp));
      BothInRange(toImport[i], clausesToAdd, m.clauses);
      toImport := toImport[i := toImport[i] + clausesToAdd];
      added := clausesToAdd;
    }

    /** Solver i has got, now or before, all clauses of others that are shared, and only those. */
    ghost predicate Served(i: nat, shared: seq<nat>, added: seq<nat>, log0: seq<Event>, toImport0: seq<nat>)
      reads this, m, solverFilters
    {
      && i < |toImport| && i < |log| && i < |solverFilters| && InRange(shared, m.clauses) && InRange(added, m.clauses)
      && toImport[i] == toImport0 + added
      && log[i] == log0 + Deliveries(LitsOf(added, m.clauses))
      && (forall k :: 0 <= k < |shared| && m.clauses[shared[k]].from != i ==> Known(solverFilters[i].View(), m.clauses[shared[k]].lits))
      && (forall k :: 0 <= k < |added| ==> added[k] in shared && m.clauses[added[k]].from != i)
    }

    /** Selects clauses for this round; they are held by the round itself now. */
    method Select() returns (tmp: seq<nat>)
      requires Valid()
      modifies database
      ensures Running(multiset(tmp)) && Proper(tmp, m.clauses) && TotalSize(tmp, m.clauses) <= literalPerRound
      ensures Selected(old(database.clauses), database.clauses, tmp, m.clauses, literalPerRound)
    {
      hide Counted, BucketsOk, Ids, Proper, InRange, TotalSize, Cost, Count;
      ghost var before := Ids(database.clauses);
      var selected, used, selectCount, g, k := database.GiveSelection(literalPerRound, m.clauses);
      tmp := selected;
      assert Picks(old(database.clauses), database.clauses, tmp, m.clauses, literalPerRound, g, k);
      assert Held() + multiset(tmp) == comm.Held() + (multiset(tmp) + Ids(database.clauses)) + Ids(toExport) + Ids(toImport);
      assert comm.Held() + before + Ids(toExport) + Ids(toImport) + multiset{} == comm.Held() + before + Ids(toExport) + Ids(toImport);
    }

    /** Offers the selection to other processes, and takes what came from them. */
    method ExchangeOutside(tmp: seq<nat>) returns (all: seq<nat>)
      requires Running(multiset(tmp)) && Proper(tmp, m.clauses)
      modifies comm`clausesToImport, comm.externalFilter, comm.clausesToExport, m`nbRefs, m`freed
      ensures Running(multiset(all)) && InRange(all, m.clauses)
      ensures all == tmp + old(comm.clausesToImport) && comm.clausesToImport == [] && database.clauses == old(database.clauses)
    {
      hide Counted, BucketsOk, Ids, EchoFree, AllKnown, AddedAll, Fresh, After, LitsOf;
      ghost var rest := Ids(database.clauses) + Ids(toExport) + Ids(toImport) + multiset(tmp);
      assert Held() + multiset(tmp) == comm.Held() + rest;
      ghost var offered := comm.AddClausesToExternal(tmp, rest);
      ghost var before := comm.Held();
      var imported := comm.GetClausesFromExternal();
      all := tmp + imported;
      assert Held() + multiset(all) == (multiset(imported) + comm.Held()) + rest;
    }

    /** One round: what the solvers learnt is collected, the shortest clauses are selected and
        offered to other processes, and the selection together with what came from others is
        given to every solver that has not seen it. */
    method DoSharing() returns (ghost shared: seq<nat>, ghost added: seq<seq<nat>>, ghost selected: seq<nat>)
      requires Valid()
      modifies this`log, this`toExport, this`toImport, solverFilters, localFilter, database
      modifies comm`clausesToImport, comm.externalFilter, comm.clausesToExport, m`nbRefs, m`freed
      ensures Valid() && |toExport| == |toImport| == |added| == |log| == |solverFilters|
      ensures shared == selected + old(comm.clausesToImport) && comm.clausesToImport == []
      ensures Selected(old(Collecting(|toExport|)).buckets, database.clauses, selected, m.clauses, literalPerRound)
      ensures forall i :: 0 <= i < |toExport| ==> toExport[i] == [] && InRange(old(toExport)[i], m.clauses)
      ensures forall i :: 0 <= i < |solverFilters| ==>
                Served(i, shared, added[i], old(log)[i] + Exports(LitsOf(old(toExport)[i], m.clauses)), old(toImport)[i])
    {
      hide Running, Selected;
      CollectAll();
      var tmp := Select();
      selected := tmp;
      tmp := ExchangeOutside(tmp);
      shared := tmp;
      added := DeliverAll(tmp);
      Finish(tmp);
    }

    ghost function Views(): (r: seq<Filter>)
      reads solverFilters
      ensures |r| == |solverFilters| && forall i :: 0 <= i < |r| ==> r[i] == solverFilters[i].View()
    {
      seq(|solverFilters|, i requires 0 <= i < |solverFilters| reads solverFilters => solverFilters[i].View())
    }

    /** The local filter and the database once the first n solvers are drained. */
    ghost function Collecting(n: nat): Intake
      requires n <= |toExport| == |solverFilters| && forall i :: 0 <= i < |toExport| ==> Proper(toExport[i], m.clauses)
      reads this, m, solverFilters, localFilter, database
    {
      Drained(Intake(Filter({}, {}), localFilter.View(), database.clauses), Views(), toExport, m.clauses, n)
    }

    method CollectAll()
      requires Valid()
      modifies this`log, this`toExport, solverFilters, localFilter, database, m`nbRefs, m`freed
      ensures Valid() && |toExport| == |old(toExport)| == |solverFilters| == |log| == |old(log)|
      ensures forall j :: 0 <= j < |toExport| ==> toExport[j] == [] && InRange(old(toExport)[j], m.clauses)
      ensures forall j :: 0 <= j < |toExport| ==> log[j] == old(log)[j] + Exports(LitsOf(old(toExport)[j], m.clauses))
      ensures database.clauses == old(Collecting(|toExport|)).buckets
    {
      hide Running, Exports, LitsOf, InRange, Drained, Proper;
      LogLength(multiset{});
      ghost var s, fs, exports := Intake(Filter({}, {}), localFilter.View(), database.clauses), Views(), toExport;
      NothingDrained(s, fs, exports, m.clauses);
      var i := 0;
      while i < |solverFilters|
        invariant i <= |solverFilters| == |exports| && Valid() && DrainedUpTo(i, exports, fs, old(log))
        invariant localFilter.View() == Drained(s, fs, exports, m.clauses, i).local
        invariant database.clauses == Drained(s, fs, exports, m.clauses, i).buckets
      {
        CollectNext(i, s, fs, exports, old(log));
        i := i + 1;
      }
    }

    /** The buffers of the first i solvers are empty and their logs say what was exported; nothing
        has happened to the others. */
    ghost predicate DrainedUpTo(i: nat, exports: seq<seq<nat>>, fs: seq<Filter>, log0: seq<seq<Event>>)
      reads this, m, solverFilters
    {
      && |toExport| == |log| == |exports| == |fs| == |log0| == |solverFilters|
      && (forall j :: 0 <= j < i && j < |log| ==>
            toExport[j] == [] && InRange(exports[j], m.clauses) && log[j] == log0[j] + Exports(LitsOf(exports[j], m.clauses)))
      && (forall j :: i <= j < |log| ==> toExport[j] == exports[j] && log[j] == log0[j] && solverFilters[j].View() == fs[j])
    }

    /** Drains the next solver; the filters of the others do not change. */
    method CollectNext(i: nat, ghost s: Intake, ghost fs: seq<Filter>, ghost exports: seq<seq<nat>>, ghost log0: seq<seq<Event>>)
      requires Valid() && i < |solverFilters| == |fs| == |exports| && DrainedUpTo(i, exports, fs, log0)
      requires forall j :: 0 <= j < |exports| ==> Proper(exports[j], m.clauses)
      requires localFilter.View() == Drained(s, fs, exports, m.clauses, i).local
      requires database.clauses == Drained(s, fs, exports, m.clauses, i).buckets
      modifies this`log, this`toExport, solverFilters[i], localFilter, database, m`nbRefs, m`freed
      ensures Valid() && DrainedUpTo(i + 1, exports, fs, log0)
      ensures localFilter.View() == Drained(s, fs, exports, m.clauses, i + 1).local
      ensures database.clauses == Drained(s, fs, exports, m.clauses, i + 1).buckets
    {
      hide Running, Exports, LitsOf, InRange, TakenAll, Proper, Drained, Apart, Known, Registered;
      OthersApart(i);
      DrainedNext(s, fs, exports, m.clauses, i);
      CollectFrom(i);
    }

    lemma OthersApart(i: nat)
      requires Valid() && i < |solverFilters|
      ensures localFilter !in solverFilters && forall j :: i < j < |solverFilters| ==> solverFilters[j] != solverFilters[i]
    {
    }

    method DeliverAll(tmp: seq<nat>) returns (ghost added: seq<seq<nat>>)
      requires Running(multiset(tmp)) && InRange(tmp, m.clauses)
      modifies this`log, this`toImport, solverFilters, m`nbRefs
      ensures Running(multiset(tmp)) && |added| == |toImport| == |old(toImport)| == |solverFilters| == |log| == |old(log)|
      ensures forall j :: 0 <= j < |added| ==> Served(j, tmp, added[j], old(log)[j], old(toImport)[j])
    {
      hide Running, Served, InRange, LitsOf, Deliveries;
      LogLength(multiset(tmp));
      added := [];
      var i := 0;
      while i < |solverFilters|
        invariant i <= |solverFilters| == |toImport| == |log| == |old(toImport)| == |old(log)| && |added| == i
        invariant Running(multiset(tmp)) && InRange(tmp, m.clauses)
        invariant forall j :: 0 <= j < i ==> Served(j, tmp, added[j], old(log)[j], old(toImport)[j])
        invariant forall j :: i <= j < |log| ==> toImport[j] == old(toImport)[j] && log[j] == old(log)[j]
      {
        ghost var more := DeliverNext(i, tmp, added, old(log), old(toImport));
        added := added + [more];
        i := i + 1;
      }
    }

    /** Solvers that have been served stay so. */
    method DeliverNext(i: nat, tmp: seq<nat>, ghost added: seq<seq<nat>>, ghost log0: seq<seq<Event>>, ghost toImport0: seq<seq<nat>>)
      returns (ghost more: seq<nat>)
      requires Running(multiset(tmp)) && i < |solverFilters| && InRange(tmp, m.clauses)
      requires |added| == i < |log| == |log0| == |toImport0| == |toImport|
      requires forall j :: 0 <= j < i ==> Served(j, tmp, added[j], log0[j], toImport0[j])
      modifies this`log, this`toImport, solverFilters[i], m`nbRefs
      ensures Running(multiset(tmp)) && |log| == |old(log)| && |toImport| == |old(toImport)|
      ensures forall j :: 0 <= j < i ==> Served(j, tmp, added[j], log0[j], toImport0[j])
      ensures Served(i, tmp, more, old(log)[i], old(toImport)[i])
      ensures forall j :: i < j < |log| ==> toImport[j] == old(toImport)[j] && log[j] == old(log)[j]
    {
      hide NoEcho, Buffers, Counted, LitsOf, Deliveries, Known, InRange, Fresh, NotFrom;
      more := DeliverTo(i, tmp);
    }

    /** The round gives up its own references. */
    method Finish(tmp: seq<nat>)
      requires Running(multiset(tmp))
      modifies m`nbRefs, m`freed
      ensures Valid()
    {
      hide Counted, BucketsOk, Ids, EchoFree, AllKnown;
      assert Held() + multiset(tmp) == multiset(tmp) + Held() && Held() == Held() + multiset{};
      ReleaseAll(m, tmp, Held());
    }

    // ---------- what happens between rounds ----------

    /** Solver i learns a clause and exports it. */
    method SolverLearns(i: nat, lits: seq<int>)
      requires Valid() && i < |toExport| && lits != []
      modifies this`toExport, m
      ensures Valid() && m.clauses == old(m.clauses) + [Exchange(i, lits)]
      ensures toExport == old(toExport)[i := old(toExport)[i] + [|old(m.clauses)|]]
    {
      hide Counted, Ids, EchoFree, AllKnown, BucketsOk, Proper, InRange;
      ghost var held, all := Held() + multiset{}, m.clauses;
      var c := m.AllocClause(i, lits, held);
      MoreAllocated(all);
      GrownBy(comm.Held(), Ids(database.clauses), Ids(toImport), toExport, i, [c], multiset{});
      Swapped(comm.Held(), Ids(database.clauses), Ids(toExport[i := toExport[i] + [c]]), Ids(toImport));
      Swapped(comm.Held(), Ids(database.clauses), Ids(toExport), Ids(toImport));
      ProperMore(toExport[i], c, m.clauses);
      toExport := toExport[i := toExport[i] + [c]];
      assert Held() + multiset{} == held + multiset{c};
    }

    lemma MoreAllocated(all: seq<Exchange>)
      requires |all| <= |m.clauses| && m.clauses[..|all|] == all && Apart()
      requires BucketsOk(comm.clausesToExport.clauses, all) && InRange(comm.clausesToImport, all) && BucketsOk(database.clauses, all)
      requires forall i :: 0 <= i < |toExport| ==> Proper(toExport[i], all)
      requires forall i :: 0 <= i < |toImport| ==> InRange(toImport[i], all)
      ensures BucketsOk(comm.clausesToExport.clauses, m.clauses) && InRange(comm.clausesToImport, m.clauses)
      ensures BucketsOk(database.clauses, m.clauses)
      ensures forall i :: 0 <= i < |toExport| ==> Proper(toExport[i], m.clauses)
      ensures forall i :: 0 <= i < |toImport| ==> InRange(toImport[i], m.clauses)
    {
      MoreClauses(comm.clausesToExport.clauses, all, m.clauses);
      MoreClauses(database.clauses, all, m.clauses);
      forall i | 0 <= i < |toExport|
        ensures Proper(toExport[i], m.clauses)
      {
        ProperLater(toExport[i], all, m.clauses);
      }
    }

    /** Solver i takes in the next clause that it was given, and releases it. */
    method SolverTakes(i: nat) returns (lits: seq<int>)
      requires Valid() && i < |toImport| && toImport[i] != []
      modifies this`toImport, m`nbRefs, m`freed
      ensures Valid() && old(toImport)[i][0] < |m.clauses| && lits == m.clauses[old(toImport)[i][0]].lits
      ensures toImport == old(toImport)[i := old(toImport)[i][1..]]
    {
      hide Counted, Ids, EchoFree, AllKnown, BucketsOk, Proper;
      var c, held := toImport[i][0], Held() + multiset{};
      lits := m.clauses[c].lits;
      Shrunk(comm.Held(), Ids(database.clauses), Ids(toExport), toImport, i);
      toImport := toImport[i := toImport[i][1..]];
      m.ReleaseClause(c, held);
    }

    /** The communicator sends a selection to the other ranks of the group. */
    method SendOut() returns (sent: bool, ghost selected: seq<nat>)
      requires Valid()
      requires comm.shrLit >= BUCKET_LITERALS || comm.clausesToExport.clauses == [] || |comm.clausesToExport.clauses[0]| < comm.shrLit
      modifies comm.clausesToExport, comm.exportBuf, m`nbRefs, m`freed
      ensures Valid() && InRange(selected, m.clauses) && multiset(selected) + comm.Held() == old(comm.Held())
      ensures sent <==> selected != []
      ensures sent ==> 0 <= comm.exportBuf[0] < comm.exportBuf.Length
      ensures sent ==> comm.exportBuf[1..comm.exportBuf[0] + 1] == Encoded(LitsOf(selected, m.clauses))
    {
      hide Counted, Ids, EchoFree, AllKnown, BucketsOk, Proper, InRange, LitsOf, Encoded;
      ghost var rest := Ids(database.clauses) + Ids(toExport) + Ids(toImport) + multiset{};
      assert Held() + multiset{} == comm.Held() + rest;
      sent, selected := comm.ExportLearnedClauses(rest);
      assert Held() + multiset{} == comm.Held() + rest;
    }

    /** A message of another rank arrives. */
    method MessageArrives(clsBuf: array<int>) returns (ghost imported: seq<nat>)
      requires Valid() && clsBuf.Length > 0 && 0 <= clsBuf[0] < clsBuf.Length
      modifies comm`clausesToImport, comm.externalFilter, m
      ensures Valid() && InRange(imported, m.clauses) && comm.clausesToImport == old(comm.clausesToImport) + imported
      ensures LitsOf(imported, m.clauses) == Fresh(old(comm.externalFilter.View()), Parse(clsBuf[1..clsBuf[0] + 1]).clauses)
    {
      hide Counted, Ids, EchoFree, AllKnown, BucketsOk, Proper, InRange, LitsOf, Parse, Fresh, After, FromOutside;
      ghost var rest, all := Ids(database.clauses) + Ids(toExport) + Ids(toImport) + multiset{}, m.clauses;
      assert Held() + multiset{} == comm.Held() + rest;
      imported := comm.HandleReceivedClauses(clsBuf, rest);
      OwnBuffersLater(all);
      assert Held() + multiset{} == comm.Held() + rest;
    }

    lemma OwnBuffersLater(all: seq<Exchange>)
      requires |all| <= |m.clauses| && m.clauses[..|all|] == all && BucketsOk(database.clauses, all)
      requires forall i :: 0 <= i < |toExport| ==> Proper(toExport[i], all)
      requires forall i :: 0 <= i < |toImport| ==> InRange(toImport[i], all)
      ensures BucketsOk(database.clauses, m.clauses)
      ensures forall i :: 0 <= i < |toExport| ==> Proper(toExport[i], m.clauses)
      ensures forall i :: 0 <= i < |toImport| ==> InRange(toImport[i], m.clauses)
    {
      MoreClauses(database.clauses, all, m.clauses);
      forall i | 0 <= i < |toExport|
        ensures Proper(toExport[i], m.clauses)
      {
        ProperLater(toExport[i], all, m.clauses);
      }
    }
  }

  lemma Swapped(a: multiset<nat>, b: multiset<nat>, c: multiset<nat>, d: multiset<nat>)
    ensures a + b + d + c + multiset{} == a + b + c + d + multiset{}
  {
  }

  lemma ProperMore(ids: seq<nat>, c: nat, all: seq<Exchange>)
    requires Proper(ids, all) && c < |all| && all[c].lits != []
    ensures Proper(ids + [c], all)
  {
  }

  /** A buffer without its first clause. */
  lemma Shrunk(a: multiset<nat>, b: multiset<nat>, c: multiset<nat>, buckets: seq<seq<nat>>, i: nat)
    requires i < |buckets| && buckets[i] != []
    ensures buckets[i][0] in a + b + c + Ids(buckets) + multiset{}
    ensures a + b + c + Ids(buckets) + multiset{} - multiset{buckets[i][0]} == a + b + c + Ids(buckets[i := buckets[i][1..]]) + multiset{}
  {
    var s := buckets[i];
    assert s == [s[0]] + s[1..];
    IdsUpdate(buckets, i, s[1..]);
    Cancel(Ids(buckets[i := s[1..]]) + multiset{s[0]}, multiset(s[1..]), Ids(buckets));
  }

  /** One more reference to each of some clauses that are held in any case. */
  method IncreaseAll(m: ClauseManager, ids: seq<nat>, among: seq<nat>, ghost held: multiset<nat>)
    requires m.Owns(held + multiset(among)) && forall k :: 0 <= k < |ids| ==> ids[k] in among
    modifies m`nbRefs
    ensures m.Owns(held + multiset(among) + multiset(ids))
  {
    var k := 0;
    assert ids[..0] == [];
    while k < |ids|
      invariant k <= |ids| && m.Owns(held + multiset(among) + multiset(ids[..k]))
    {
      OneFurtherHeld(held, among, ids, k);
      m.IncreaseClause(ids[k], 1, held + multiset(among) + multiset(ids[..k]));
      k := k + 1;
    }
    assert ids[..k] == ids;
  }

  lemma OneFurtherHeld(held: multiset<nat>, among: seq<nat>, ids: seq<nat>, k: nat)
    requires k < |ids| && ids[k] in among
    ensures var all := held + multiset(among) + multiset(ids[..k]);
            ids[k] in all && all[ids[k] := all[ids[k]] + 1] == held + multiset(among) + multiset(ids[..k + 1])
  {
    var all := held + multiset(among) + multiset(ids[..k]);
    assert ids[..k + 1] == ids[..k] + [ids[k]];
    assert ids[k] in multiset(among);
    OneMore(all, ids[k]);
    assert all + multiset{ids[k]} == held + multiset(among) + (multiset(ids[..k]) + multiset{ids[k]});
  }

  lemma GrownBy(a: multiset<nat>, b: multiset<nat>, c: multiset<nat>, buckets: seq<seq<nat>>, i: nat, more: seq<nat>, extra: multiset<nat>)
    requires i < |buckets|
    ensures a + b + c + Ids(buckets[i := buckets[i] + more]) + extra == a + b + c + Ids(buckets) + extra + multiset(more)
  {
    IdsUpdate(buckets, i, buckets[i] + more);
    Cancel(Ids(buckets[i := buckets[i] + more]), multiset(buckets[i]), Ids(buckets) + multiset(more));
  }

  lemma BothInRange(a: seq<nat>, b: seq<nat>, all: seq<Exchange>)
    requires InRange(a, all) && InRange(b, all)
    ensures InRange(a + b, all)
  {
  }

  /** A filter knows what it has been shown. */
  lemma {:induction false} AfterKnows(f: Filter, cs: seq<seq<int>>, k: nat)
    requires k < |cs|
    ensures Known(After(f, cs), cs[k])
  {
    hide Known, Registered;
    var n := |cs| - 1;
    RegisteredKnown(After(f, cs[..n]), cs[n]);
    if k < n {
      AfterKnows(f, cs[..n], k);
    }
  }

  lemma {:induction false} NotFromHas(ids: seq<nat>, i: nat, all: seq<Exchange>, k: nat)
    requires InRange(ids, all) && k < |ids| && all[ids[k]].from != i
    ensures ids[k] in NotFrom(ids, i, all)
  {
    if k < |ids| - 1 {
      NotFromHas(ids[..|ids| - 1], i, all, k);
    }
  }

  lemma KnowsAll(f: Filter, ids: seq<nat>, i: nat, all: seq<Exchange>)
    requires InRange(ids, all)
    ensures forall k :: 0 <= k < |ids| && all[ids[k]].from != i ==>
              Known(After(f, LitsOf(NotFrom(ids, i, all), all)), all[ids[k]].lits)
  {
    hide Known, After, NotFrom;
    forall k | 0 <= k < |ids| && all[ids[k]].from != i
      ensures Known(After(f, LitsOf(NotFrom(ids, i, all), all)), all[ids[k]].lits)
    {
      NotFromHas(ids, i, all, k);
      var r := NotFrom(ids, i, all);
      var j :| 0 <= j < |r| && r[j] == ids[k];
      AfterKnows(f, LitsOf(r, all), j);
    }
  }

  function Deliveries(lits: seq<seq<int>>): seq<Event> {
    seq(|lits|, k requires 0 <= k < |lits| => Delivered(lits[k]))
  }

  lemma NothingDelivered(tmp: seq<nat>, all: seq<Exchange>, f: Filter, i: nat, log: seq<seq<Event>>)
    requires i < |log|
    ensures InRange(tmp[..0], all) && InRange([], all) && NotFrom(tmp[..0], i, all) == [] && LitsOf([], all) == []
    ensures Fresh(f, []) == [] && After(f, []) == f && log[i := log[i] + Deliveries([])] == log
  {
    assert log[i] + Deliveries([]) == log[i];
  }

  lemma OneMoreDelivered(added: seq<nat>, c: nat, all: seq<Exchange>, log: seq<Event>)
    requires InRange(added, all) && c < |all|
    ensures InRange(added + [c], all) && LitsOf(added + [c], all) == LitsOf(added, all) + [all[c].lits]
    ensures log + Deliveries(LitsOf(added + [c], all)) == log + Deliveries(LitsOf(added, all)) + [Delivered(all[c].lits)]
  {
  }

  /** Clause k counts when it is not the solver's own. */
  lemma OneMoreCandidate(tmp: seq<nat>, k: nat, i: nat, all: seq<Exchange>, f: Filter)
    requires InRange(tmp, all) && k < |tmp|
    ensures tmp[k] < |all| && InRange(tmp[..k], all) && InRange(tmp[..k + 1], all)
    ensures var lits := LitsOf(NotFrom(tmp[..k], i, all), all);
            var lits' := LitsOf(NotFrom(tmp[..k + 1], i, all), all);
            var c := all[tmp[k]].lits;
            if all[tmp[k]].from == i then lits' == lits
            else
              && lits' == lits + [c] && After(f, lits') == Registered(After(f, lits), c)
              && Fresh(f, lits') == Fresh(f, lits) + if Known(After(f, lits), c) then [] else [c]
  {
    NotFromStep(tmp, k, i, all);
    var lits := LitsOf(NotFrom(tmp[..k], i, all), all);
    assert NotFrom(tmp[..k], i, all) + [] == NotFrom(tmp[..k], i, all);
    if all[tmp[k]].from != i {
      assert LitsOf(NotFrom(tmp[..k + 1], i, all), all) == lits + [all[tmp[k]].lits];
      FilterStep(f, lits, all[tmp[k]].lits);
    }
  }

  /** The log entries of exported clauses. */
  function Exports(lits: seq<seq<int>>): seq<Event> {
    seq(|lits|, k requires 0 <= k < |lits| => Exported(lits[k]))
  }

  lemma NothingLogged(ids: seq<nat>, all: seq<Exchange>, log: seq<Event>)
    ensures InRange(ids[..0], all) && log + Exports(LitsOf(ids[..0], all)) == log
  {
  }

  lemma OneMoreLogged(ids: seq<nat>, k: nat, all: seq<Exchange>, log: seq<Event>)
    requires Proper(ids, all) && k < |ids|
    ensures ids[k] < |all| && all[ids[k]].lits != [] && InRange(ids[..k], all) && InRange(ids[..k + 1], all)
    ensures log + Exports(LitsOf(ids[..k + 1], all)) == log + Exports(LitsOf(ids[..k], all)) + [Exported(all[ids[k]].lits)]
  {
  }

  lemma NothingProper(all: seq<Exchange>)
    ensures Proper([], all)
  {
  }

  lemma Emptied(a: multiset<nat>, b: multiset<nat>, c: multiset<nat>, c0: multiset<nat>, d: multiset<nat>, x: multiset<nat>)
    requires c + x == c0 + multiset{}
    ensures a + b + c + d + x == a + b + c0 + d + multiset{}
  {
    assert a + b + c + d + x == a + b + (c + x) + d;
    assert a + b + c0 + d == a + b + (c0 + multiset{}) + d;
  }

  lemma {:induction false} NoIds(buckets: seq<seq<nat>>)
    requires forall i :: 0 <= i < |buckets| ==> buckets[i] == []
    ensures Ids(buckets) == multiset{}
  {
    if buckets != [] {
      NoIds(buckets[..|buckets| - 1]);
    }
  }

  lemma Rearranged(a: multiset<nat>, b: multiset<nat>, c: multiset<nat>, d: multiset<nat>, extra: multiset<nat>, x: multiset<nat>)
    ensures a + (b + x) + c + d + extra == (a + b + c + d + extra) + x
    ensures (a + b + c + d + extra) + x - x == a + b + c + d + extra
  {
  }
}
