/** The queue of shared clauses that threads fill and empty without locks, as a machine whose steps
    are single accesses to shared memory, and the atomic queue that it implements. */
module LockFreeQueue {
  import opened Wrappers

  /** A clause is known by its address. */
  type Clause = nat

  /** What a thread shows to the outside in one step. */
  datatype Action = Internal | CallAdd(c: Clause) | ReturnAdd | CallGet | ReturnGet(result: Option<Clause>)

  /** The next shared access of a thread, with its local variables. List elements are named by
      their place in the list, as none is ever used twice. */
  datatype Pc =
    | Idle
    // addClause
    | LoadTail(c: Clause)
    | LoadNext(c: Clause, tail: nat)
    | TestTail(c: Clause, tail: nat, next: Option<nat>)
    | LinkNode(c: Clause, tail: nat)
    | AdvanceTail(c: Clause, tail: nat, succ: nat)
    | SwingTail(tail: nat, node: nat)
    | CountUp
    // getClause
    | LoadHead
    | LoadTailToo(head: nat)
    | LoadHeadNext(head: nat, tail: nat)
    | TestHead(head: nat, tail: nat, next: Option<nat>)
    | HelpTail(tail: nat, succ: nat)
    | TakeHead(head: nat, succ: nat, c: Clause)
    | CountDown(c: Clause)

  /** The list elements in order, the first being the dummy; then the fields of the buffer. */
  datatype State = State(chain: seq<Clause>, head: nat, tail: nat, size: int, pc: seq<Pc>)

  function Initial(threads: nat): State {
    State([0], 0, 0, 0, seq(threads, _ => Idle))
  }

  function NextOf(chain: seq<Clause>, p: nat): Option<nat> {
    if p + 1 < |chain| then Some(p + 1) else None
  }

  /** One shared access of thread t and the local tests that follow it. */
  function Access(s: State, t: nat): (State, Action)
    requires t < |s.pc| && !s.pc[t].Idle?
  {
    match s.pc[t]
    case LoadTail(c) => (s.(pc := s.pc[t := LoadNext(c, s.tail)]), Internal)
    case LoadNext(c, tail) => (s.(pc := s.pc[t := TestTail(c, tail, NextOf(s.chain, tail))]), Internal)
    case TestTail(c, tail, next) =>
      (s.(pc := s.pc[t := if tail != s.tail then LoadTail(c)
                     else if next == None then LinkNode(c, tail)
                     else AdvanceTail(c, tail, next.value)]), Internal)
    case LinkNode(c, tail) =>
      if NextOf(s.chain, tail) == None then
        (s.(chain := s.chain + [c], pc := s.pc[t := SwingTail(tail, |s.chain|)]), Internal)
      else
        (s.(pc := s.pc[t := LoadTail(c)]), Internal)
    case AdvanceTail(c, tail, succ) =>
      (s.(tail := if s.tail == tail then succ else s.tail, pc := s.pc[t := LoadTail(c)]), Internal)
    case SwingTail(tail, node) =>
      (s.(tail := if s.tail == tail then node else s.tail, pc := s.pc[t := CountUp]), Internal)
    case CountUp => (s.(size := s.size + 1, pc := s.pc[t := Idle]), ReturnAdd)
    case LoadHead => (s.(pc := s.pc[t := LoadTailToo(s.head)]), Internal)
    case LoadTailToo(head) => (s.(pc := s.pc[t := LoadHeadNext(head, s.tail)]), Internal)
    case LoadHeadNext(head, tail) => (s.(pc := s.pc[t := TestHead(head, tail, NextOf(s.chain, head))]), Internal)
    case TestHead(head, tail, next) =>
      if head != s.head then (s.(pc := s.pc[t := LoadHead]), Internal)
      else if head == tail && next == None then (s.(pc := s.pc[t := Idle]), ReturnGet(None))
      else if head == tail then (s.(pc := s.pc[t := HelpTail(tail, next.value)]), Internal)
      else
        var succ := if next.Some? then next.value else 0;
        (s.(pc := s.pc[t := TakeHead(head, succ, if succ < |s.chain| then s.chain[succ] else 0)]), Internal)
    case HelpTail(tail, succ) =>
      (s.(tail := if s.tail == tail then succ else s.tail, pc := s.pc[t := LoadHead]), Internal)
    case TakeHead(head, succ, c) =>
      if s.head == head then (s.(head := succ, pc := s.pc[t := CountDown(c)]), Internal)
      else (s.(pc := s.pc[t := LoadHead]), Internal)
    case CountDown(c) => (s.(size := s.size - 1, pc := s.pc[t := Idle]), ReturnGet(Some(c)))
  }

  /** Thread t goes on: it starts an operation, or makes its next access. */
  ghost predicate Step(s: State, s': State, t: nat, a: Action) {
    && t < |s.pc|
    && if s.pc[t].Idle? then
         || (a.CallAdd? && s' == s.(pc := s.pc[t := LoadTail(a.c)]))
         || (a.CallGet? && s' == s.(pc := s.pc[t := LoadHead]))
       else
         (s', a) == Access(s, t)
  }

  // ---------- what every step keeps ----------

  /** What a thread may rely on about its local variables. */
  ghost predicate PcOk(s: State, pc: Pc) {
    match pc
    case LoadNext(_, tail) => tail <= s.tail
    case TestTail(_, tail, next) => tail <= s.tail && (next.Some? ==> next.value == tail + 1 < |s.chain|)
    case LinkNode(_, tail) => tail <= s.tail
    case AdvanceTail(_, tail, succ) => tail <= s.tail && succ == tail + 1 < |s.chain|
    case SwingTail(tail, node) => tail <= s.tail && node == tail + 1 < |s.chain|
    case LoadTailToo(head) => head <= s.head
    case LoadHeadNext(head, tail) => head <= s.head && head <= tail <= s.tail
    case TestHead(head, tail, next) =>
      && head <= s.head && head <= tail <= s.tail && (next.Some? ==> next.value == head + 1 < |s.chain|)
      && (next.None? ==> head == tail)
    case HelpTail(tail, succ) => tail <= s.tail && succ == tail + 1 < |s.chain|
    case TakeHead(head, succ, c) => head < s.tail && succ == head + 1 < |s.chain| && c == s.chain[succ]
    case _ => true
  }

  /** An addition that is linked but not counted adds one, a removal that is not yet counted
      takes one away. */
  function Uncounted(pc: Pc): int {
    if pc.SwingTail? || pc.CountUp? then 1 else if pc.CountDown? then -1 else 0
  }

  function InFlight(pc: seq<Pc>): int {
    if pc == [] then 0 else InFlight(pc[..|pc| - 1]) + Uncounted(pc[|pc| - 1])
  }

  /** The tail is the last list element or the one before it. */
  ghost predicate Inv(s: State) {
    && s.head <= s.tail < |s.chain| <= s.tail + 2
    && (forall t :: 0 <= t < |s.pc| ==> PcOk(s, s.pc[t]))
    && s.size + InFlight(s.pc) == |s.chain| - 1 - s.head
  }

  lemma InitialInv(threads: nat)
    ensures Inv(Initial(threads))
  {
    NoneInFlight(Initial(threads).pc);
  }

  lemma {:induction false} NoneInFlight(pc: seq<Pc>)
    requires forall t :: 0 <= t < |pc| ==> pc[t].Idle?
    ensures InFlight(pc) == 0
  {
    if pc != [] {
      NoneInFlight(pc[..|pc| - 1]);
    }
  }

  lemma {:induction false} InFlightUpdate(pc: seq<Pc>, t: nat, p: Pc)
    requires t < |pc|
    ensures InFlight(pc[t := p]) == InFlight(pc) - Uncounted(pc[t]) + Uncounted(p)
    decreases |pc|
  {
    if t < |pc| - 1 {
      InFlightUpdate(pc[..|pc| - 1], t, p);
      assert pc[t := p][..|pc| - 1] == pc[..|pc| - 1][t := p];
    } else {
      assert pc[t := p][..|pc| - 1] == pc[..|pc| - 1];
    }
  }

  /** The list only grows, and head and tail only move forward. */
  ghost predicate Later(s: State, s': State) {
    && |s.chain| <= |s'.chain| && s'.chain[..|s.chain|] == s.chain
    && s.head <= s'.head && s.tail <= s'.tail
  }

  lemma PcOkLater(s: State, s': State, pc: Pc)
    requires PcOk(s, pc) && Later(s, s')
    ensures PcOk(s', pc)
  {
    if pc.TakeHead? {
      assert s'.chain[..|s.chain|][pc.succ] == s.chain[pc.succ];
    }
  }

  /** No step breaks the invariant, whatever the other threads are about to do. */
  lemma StepKeepsInv(s: State, s': State, t: nat, a: Action)
    requires Inv(s) && Step(s, s', t, a)
    ensures Inv(s') && Later(s, s')
  {
    var p := s'.pc[t];
    assert PcOk(s, s.pc[t]);
    assert s'.pc == s.pc[t := p];
    InFlightUpdate(s.pc, t, p);
    StepShape(s, s', t, a);
    forall u | 0 <= u < |s'.pc|
      ensures PcOk(s', s'.pc[u])
    {
      if u != t {
        PcOkLater(s, s', s.pc[u]);
      }
    }
  }

  lemma StepShape(s: State, s': State, t: nat, a: Action)
    requires Inv(s) && Step(s, s', t, a)
    ensures |s'.pc| == |s.pc| && s'.pc == s.pc[t := s'.pc[t]]
    ensures Later(s, s') && PcOk(s', s'.pc[t])
    ensures s'.head <= s'.tail < |s'.chain| <= s'.tail + 2
    ensures Uncounted(s'.pc[t]) - Uncounted(s.pc[t]) == |s'.chain| - s'.head - s'.size - (|s.chain| - s.head - s.size)
  {
    hide InFlight;
    assert PcOk(s, s.pc[t]);
    ChangesOnlyPc(s, s', t, a);
    if s.pc[t].Idle? {
    } else if Meaning(s.pc[t]).Getting? || s.pc[t].CountDown? {
      GetShape(s, s', t, a);
    } else {
      AddShape(s, s', t, a);
    }
  }

  lemma ChangesOnlyPc(s: State, s': State, t: nat, a: Action)
    requires Step(s, s', t, a)
    ensures |s'.pc| == |s.pc| && s'.pc == s.pc[t := s'.pc[t]]
  {
    hide NextOf;
    if !s.pc[t].Idle? {
      assert s' == Access(s, t).0;
    }
  }

  lemma AddShape(s: State, s': State, t: nat, a: Action)
    requires t < |s.pc| && !s.pc[t].Idle? && !Meaning(s.pc[t]).Getting? && !s.pc[t].CountDown?
    requires s.head <= s.tail < |s.chain| <= s.tail + 2 && PcOk(s, s.pc[t]) && (s', a) == Access(s, t)
    ensures Later(s, s') && t < |s'.pc| && PcOk(s', s'.pc[t])
    ensures s'.head <= s'.tail < |s'.chain| <= s'.tail + 2
    ensures Uncounted(s'.pc[t]) - Uncounted(s.pc[t]) == |s'.chain| - s'.head - s'.size - (|s.chain| - s.head - s.size)
  {
  }

  lemma GetShape(s: State, s': State, t: nat, a: Action)
    requires t < |s.pc| && (Meaning(s.pc[t]).Getting? || s.pc[t].CountDown?)
    requires s.head <= s.tail < |s.chain| <= s.tail + 2 && PcOk(s, s.pc[t]) && (s', a) == Access(s, t)
    ensures s'.chain == s.chain && s.head <= s'.head && s.tail <= s'.tail && t < |s'.pc| && PcOk(s', s'.pc[t])
    ensures s'.head <= s'.tail < |s'.chain| <= s'.tail + 2
    ensures Uncounted(s'.pc[t]) - Uncounted(s.pc[t]) == |s'.chain| - s'.head - s'.size - (|s.chain| - s.head - s.size)
  {
  }

  // ---------- the queue that is implemented ----------

  /** A thread of the atomic queue: between call and return its operation takes effect once. */
  datatype Op = NoOp | Adding(c: Clause) | Added | Getting(sawEmpty: bool) | Got(c: Clause)

  datatype Queue = Queue(items: seq<Clause>, ops: seq<Op>)

  /** The effect of an addition or removal happens in one step; "empty" may only be reported by a
      removal during which the queue was empty. */
  ghost predicate OpStep(items: seq<Clause>, items': seq<Clause>, op: Op, op': Op, a: Action) {
    match a
    case CallAdd(c) => op == NoOp && op' == Adding(c) && items' == items
    case ReturnAdd => op == Added && op' == NoOp && items' == items
    case CallGet => op == NoOp && op' == Getting(false) && items' == items
    case ReturnGet(None) => op == Getting(true) && op' == NoOp && items' == items
    case ReturnGet(Some(c)) => op == Got(c) && op' == NoOp && items' == items
    case Internal =>
      || (op' == op && items' == items)
      || (op.Adding? && op' == Added && items' == items + [op.c])
      || (op.Getting? && op' == Getting(false) && items' == items)
      || (op.Getting? && op' == Getting(true) && items == [] == items')
      || (op.Getting? && items != [] && op' == Got(items[0]) && items' == items[1..])
  }

  ghost predicate QueueStep(q: Queue, q': Queue, t: nat, a: Action) {
    && t < |q.ops| == |q'.ops| && q'.ops == q.ops[t := q'.ops[t]]
    && OpStep(q.items, q'.items, q.ops[t], q'.ops[t], a)
  }

  function Meaning(pc: Pc): Op {
    match pc
    case Idle => NoOp
    case LoadTail(c) => Adding(c)
    case LoadNext(c, _) => Adding(c)
    case TestTail(c, _, _) => Adding(c)
    case LinkNode(c, _) => Adding(c)
    case AdvanceTail(c, _, _) => Adding(c)
    case SwingTail(_, _) => Added
    case CountUp => Added
    case TestHead(_, _, next) => Getting(next.None?)
    case CountDown(c) => Got(c)
    case _ => Getting(false)
  }

  /** The queue is what lies behind the dummy that the head points to. */
  function Abstract(s: State): Queue
    requires s.head < |s.chain|
  {
    Queue(s.chain[s.head + 1..], seq(|s.pc|, t requires 0 <= t < |s.pc| => Meaning(s.pc[t])))
  }

  /** Each access is a step of the atomic queue, with the same calls, returns and results. */
  lemma StepRefines(s: State, s': State, t: nat, a: Action)
    requires Inv(s) && Step(s, s', t, a)
    ensures Inv(s') && QueueStep(Abstract(s), Abstract(s'), t, a)
  {
    StepKeepsInv(s, s', t, a);
    ChangesOnlyPc(s, s', t, a);
    OpRefines(s, s', t, a);
    hide Inv, Step, OpStep, Meaning;
    assert Abstract(s').ops == Abstract(s).ops[t := Meaning(s'.pc[t])];
  }

  lemma OpRefines(s: State, s': State, t: nat, a: Action)
    requires Inv(s) && Step(s, s', t, a) && Inv(s') && t < |s'.pc|
    ensures OpStep(s.chain[s.head + 1..], s'.chain[s'.head + 1..], Meaning(s.pc[t]), Meaning(s'.pc[t]), a)
  {
    hide InFlight;
    assert PcOk(s, s.pc[t]);
    ItemsRefine(s, s', t, a);
  }

  lemma ItemsRefine(s: State, s': State, t: nat, a: Action)
    requires Inv(s) && Step(s, s', t, a) && Inv(s')
    ensures var items, items' := s.chain[s.head + 1..], s'.chain[s'.head + 1..];
            match s.pc[t]
            case LinkNode(c, tail) => items' == if s.chain == s'.chain then items else items + [c]
            case TakeHead(head, _, c) =>
              if s.head == head then items != [] && items[0] == c && items' == items[1..] else items' == items
            case LoadHeadNext(head, _) => items' == items && (NextOf(s.chain, head) == None ==> items == [])
            case _ => items' == items
  {
    hide InFlight;
    assert PcOk(s, s.pc[t]);
    if s.pc[t].LinkNode? {
      assert (s.chain + [s.pc[t].c])[s.head + 1..] == s.chain[s.head + 1..] + [s.pc[t].c];
    } else if s.pc[t].TakeHead? && s.pc[t].head == s.head {
      assert s.chain[s.head + 1..][1..] == s.chain[s.head + 2..];
    }
  }


  // ---------- whole runs ----------

  /** A run: states, and for each step the thread and what it shows. */
  datatype Event = Event(thread: nat, action: Action)

  ghost predicate Run(states: seq<State>, events: seq<Event>) {
    && |states| == |events| + 1
    && (exists threads :: states[0] == Initial(threads))
    && forall k :: 0 <= k < |events| ==> Step(states[k], states[k + 1], events[k].thread, events[k].action)
  }

  lemma {:induction false} RunKeepsInv(states: seq<State>, events: seq<Event>, k: nat)
    requires Run(states, events) && k <= |events|
    ensures Inv(states[k])
  {
    if k == 0 {
      var threads :| states[0] == Initial(threads);
      InitialInv(threads);
    } else {
      RunKeepsInv(states, events, k - 1);
      StepKeepsInv(states[k - 1], states[k], events[k - 1].thread, events[k - 1].action);
    }
  }

  /** Every interleaving is a run of the atomic queue with the same visible events, the tail lags
      by at most one, and size is off only by operations that have not returned. */
  lemma RunRefines(states: seq<State>, events: seq<Event>)
    requires Run(states, events)
    ensures forall k :: 0 <= k < |states| ==>
              && states[k].head < |states[k].chain|
              && |states[k].chain| - 2 <= states[k].tail <= |states[k].chain| - 1
              && states[k].size + InFlight(states[k].pc) == |Abstract(states[k]).items|
    ensures Abstract(states[0]).items == [] && forall t :: 0 <= t < |states[0].pc| ==> Abstract(states[0]).ops[t] == NoOp
    ensures forall k :: 0 <= k < |events| ==>
              QueueStep(Abstract(states[k]), Abstract(states[k + 1]), events[k].thread, events[k].action)
  {
    forall k | 0 <= k < |states|
      ensures Inv(states[k])
    {
      RunKeepsInv(states, events, k);
    }
    forall k | 0 <= k < |events|
      ensures QueueStep(Abstract(states[k]), Abstract(states[k + 1]), events[k].thread, events[k].action)
    {
      StepRefines(states[k], states[k + 1], events[k].thread, events[k].action);
    }
  }

  // ---------- what callers see of the atomic queue ----------

  /** A run of the atomic queue from the empty queue. */
  ghost predicate QueueRun(queues: seq<Queue>, events: seq<Event>) {
    && |queues| == |events| + 1
    && queues[0].items == [] && (forall t :: 0 <= t < |queues[0].ops| ==> queues[0].ops[t] == NoOp)
    && forall k :: 0 <= k < |events| ==> QueueStep(queues[k], queues[k + 1], events[k].thread, events[k].action)
  }

  function OfferedBy(a: Action): seq<Clause> {
    if a.CallAdd? then [a.c] else []
  }

  function DeliveredBy(a: Action): seq<Clause> {
    if a.ReturnGet? && a.result.Some? then [a.result.value] else []
  }

  /** The clauses that callers handed in, in the order of the calls. */
  function Offered(events: seq<Event>): seq<Clause> {
    if events == [] then [] else Offered(events[..|events| - 1]) + OfferedBy(events[|events| - 1].action)
  }

  /** The clauses that callers got, in the order of the returns. */
  function Delivered(events: seq<Event>): seq<Clause> {
    if events == [] then [] else Delivered(events[..|events| - 1]) + DeliveredBy(events[|events| - 1].action)
  }

  /** The clause of an operation that has been called and not inserted, or removed and not returned. */
  function InHand(op: Op): seq<Clause> {
    if op.Adding? || op.Got? then [op.c] else []
  }

  /** How often clause c is held by a pending operation. */
  function Held(ops: seq<Op>, c: Clause): nat {
    if ops == [] then 0 else Held(ops[..|ops| - 1], c) + multiset(InHand(ops[|ops| - 1]))[c]
  }

  lemma {:induction false} HeldUpdate(ops: seq<Op>, t: nat, op: Op, c: Clause)
    requires t < |ops|
    ensures Held(ops[t := op], c) + multiset(InHand(ops[t]))[c] == Held(ops, c) + multiset(InHand(op))[c]
    decreases |ops|
  {
    hide InHand;
    if t < |ops| - 1 {
      HeldUpdate(ops[..|ops| - 1], t, op, c);
      assert ops[t := op][..|ops| - 1] == ops[..|ops| - 1][t := op];
    } else {
      assert ops[t := op][..|ops| - 1] == ops[..|ops| - 1];
    }
  }

  lemma {:induction false} NothingHeld(ops: seq<Op>, c: Clause)
    requires forall t :: 0 <= t < |ops| ==> ops[t] == NoOp
    ensures Held(ops, c) == 0
  {
    if ops != [] {
      NothingHeld(ops[..|ops| - 1], c);
    }
  }

  lemma RunPrefix(queues: seq<Queue>, events: seq<Event>)
    requires QueueRun(queues, events) && events != []
    ensures var n := |events| - 1;
            QueueRun(queues[..n + 1], events[..n]) && QueueStep(queues[n], queues[n + 1], events[n].thread, events[n].action)
  {
    hide QueueStep;
  }

  /** No clause is lost, invented or delivered twice, whichever threads call. */
  lemma {:induction false} Conservation(queues: seq<Queue>, events: seq<Event>, c: Clause)
    requires QueueRun(queues, events)
    ensures var q := queues[|events|];
            multiset(Offered(events))[c] == multiset(Delivered(events))[c] + Held(q.ops, c) + multiset(q.items)[c]
    decreases |events|
  {
    hide QueueStep, OfferedBy, DeliveredBy, Held;
    if events == [] {
      NothingHeld(queues[0].ops, c);
    } else {
      var n := |events| - 1;
      RunPrefix(queues, events);
      Conservation(queues[..n + 1], events[..n], c);
      OneStepConserves(queues[n], queues[n + 1], events[n].thread, events[n].action, c);
    }
  }

  lemma OneStepConserves(q: Queue, q': Queue, t: nat, a: Action, c: Clause)
    requires QueueStep(q, q', t, a)
    ensures multiset(OfferedBy(a))[c] + Held(q.ops, c) + multiset(q.items)[c]
            == multiset(DeliveredBy(a))[c] + Held(q'.ops, c) + multiset(q'.items)[c]
  {
    HeldUpdate(q.ops, t, q'.ops[t], c);
    hide OpStep, OfferedBy, DeliveredBy, Held, InHand;
    OpConserves(q.items, q'.items, q.ops[t], q'.ops[t], a, c);
  }

  lemma OpConserves(items: seq<Clause>, items': seq<Clause>, op: Op, op': Op, a: Action, c: Clause)
    requires OpStep(items, items', op, op', a)
    ensures multiset(OfferedBy(a))[c] + multiset(InHand(op))[c] + multiset(items)[c]
            == multiset(DeliveredBy(a))[c] + multiset(InHand(op'))[c] + multiset(items')[c]
  {
    if a != Internal {
      assert items' == items;
    } else if op.Adding? {
      AddingConserves(items, items', op, op', c);
    } else {
      GettingConserves(items, items', op, op', c);
    }
  }

  lemma AddingConserves(items: seq<Clause>, items': seq<Clause>, op: Op, op': Op, c: Clause)
    requires OpStep(items, items', op, op', Internal) && op.Adding?
    ensures multiset(InHand(op))[c] + multiset(items)[c] == multiset(InHand(op'))[c] + multiset(items')[c]
  {
  }

  lemma GettingConserves(items: seq<Clause>, items': seq<Clause>, op: Op, op': Op, c: Clause)
    requires OpStep(items, items', op, op', Internal) && !op.Adding?
    ensures multiset(InHand(op))[c] + multiset(items)[c] == multiset(InHand(op'))[c] + multiset(items')[c]
  {
    if op.Getting? && op'.Got? {
      TakingOut(items, c);
    }
  }

  lemma TakingOut(items: seq<Clause>, c: Clause)
    requires items != []
    ensures multiset(items)[c] == multiset([items[0]])[c] + multiset(items[1..])[c]
  {
    assert items == [items[0]] + items[1..];
  }

  /** Only the producer adds and only the consumer removes. */
  ghost predicate OneToOne(events: seq<Event>, producer: nat, consumer: nat) {
    && producer != consumer
    && forall k :: 0 <= k < |events| ==>
         && (events[k].action.CallAdd? ==> events[k].thread == producer)
         && (events[k].action.CallGet? ==> events[k].thread == consumer)
  }

  ghost predicate Roles(ops: seq<Op>, producer: nat, consumer: nat) {
    && producer < |ops| && consumer < |ops|
    && forall t :: 0 <= t < |ops| ==>
         && (ops[t].Adding? || ops[t].Added? ==> t == producer)
         && (ops[t].Getting? || ops[t].Got? ==> t == consumer)
  }

  /** What has been sent and not yet received, oldest first. */
  function UnderWay(q: Queue, producer: nat, consumer: nat): seq<Clause>
    requires producer < |q.ops| && consumer < |q.ops|
  {
    InHand(q.ops[consumer]) + q.items + InHand(q.ops[producer])
  }

  /** Between one producer and one consumer clauses arrive in the order in which they were sent. */
  lemma {:induction false} ProducerOrder(queues: seq<Queue>, events: seq<Event>, producer: nat, consumer: nat)
    requires QueueRun(queues, events) && OneToOne(events, producer, consumer)
    requires producer < |queues[0].ops| && consumer < |queues[0].ops|
    ensures var q := queues[|events|];
            && Roles(q.ops, producer, consumer)
            && Offered(events) == Delivered(events) + UnderWay(q, producer, consumer)
    decreases |events|
  {
    hide QueueStep, OfferedBy, DeliveredBy, InHand, UnderWay;
    if events == [] {
      NothingUnderWay(queues[0], producer, consumer);
    } else {
      var n := |events| - 1;
      RunPrefix(queues, events);
      ProducerOrder(queues[..n + 1], events[..n], producer, consumer);
      assert OneToOne(events[..n], producer, consumer);
      OneStepOrder(queues[n], queues[n + 1], events[n], producer, consumer);
      var o, d := OfferedBy(events[n].action), DeliveredBy(events[n].action);
      assert Offered(events) == Delivered(events[..n]) + (UnderWay(queues[n], producer, consumer) + o);
    }
  }

  lemma NothingUnderWay(q: Queue, producer: nat, consumer: nat)
    requires producer < |q.ops| && consumer < |q.ops| && q.ops[producer] == NoOp == q.ops[consumer] && q.items == []
    ensures UnderWay(q, producer, consumer) == []
  {
  }

  lemma OneStepOrder(q: Queue, q': Queue, e: Event, producer: nat, consumer: nat)
    requires QueueStep(q, q', e.thread, e.action) && Roles(q.ops, producer, consumer) && producer != consumer
    requires e.action.CallAdd? ==> e.thread == producer
    requires e.action.CallGet? ==> e.thread == consumer
    ensures Roles(q'.ops, producer, consumer)
    ensures UnderWay(q, producer, consumer) + OfferedBy(e.action) == DeliveredBy(e.action) + UnderWay(q', producer, consumer)
  {
    if e.action == Internal && q.ops[e.thread].Getting? && q'.ops[e.thread].Got? {
      assert q.items == [q.items[0]] + q.items[1..];
    }
  }

  function Abstracts(states: seq<State>): seq<Queue>
    requires forall k :: 0 <= k < |states| ==> states[k].head < |states[k].chain|
  {
    seq(|states|, k requires 0 <= k < |states| => Abstract(states[k]))
  }

  /** Every interleaving of accesses is a run of the atomic queue; so what has been handed in and
      not yet handed out is in the list or in the hands of a thread. */
  lemma InterleavingsConserve(states: seq<State>, events: seq<Event>, c: Clause)
    requires Run(states, events)
    ensures forall k :: 0 <= k < |states| ==> states[k].head < |states[k].chain|
    ensures QueueRun(Abstracts(states), events)
    ensures var q := Abstract(states[|events|]);
            multiset(Offered(events))[c] == multiset(Delivered(events))[c] + Held(q.ops, c) + multiset(q.items)[c]
  {
    hide QueueStep;
    RunRefines(states, events);
    assert forall k :: 0 <= k < |states| ==> Abstracts(states)[k] == Abstract(states[k]);
    assert Abstracts(states)[0] == Abstract(states[0]);
    Conservation(Abstracts(states), events, c);
  }

  // ---------- draining ----------

  /** The queue as one of its users sees it, while others may add clauses between two calls. */
  class Drain {
    var items: seq<Clause>

    constructor (contents: seq<Clause>)
      ensures items == contents
    {
      items := contents;
    }

    method GetClause() returns (r: Option<Clause>)
      modifies this
      ensures old(items) == [] ==> r == None && items == []
      ensures old(items) != [] ==> r == Some(old(items)[0]) && items == old(items)[1..]
    {
      if items == [] {
        r := None;
      } else {
        r, items := Some(items[0]), items[1..];
      }
    }

    /** getClauses, where size is what it reads of the size counter and arrivals[k] is what other
        threads add just before its call number k. Its test comes after the call, so a clause that
        it has taken beyond its count is lost. */
    method GetClauses(size: int, arrivals: seq<seq<Clause>>) returns (clauses: seq<Clause>, lost: seq<Clause>, calls: nat)
      requires size < |arrivals| && |arrivals| > 0
      modifies this
      ensures calls <= |arrivals| && |lost| <= 1
      ensures clauses + lost + items == old(items) + Flat(arrivals[..calls])
      ensures |clauses| <= Max(size, 0)
      ensures lost == [] <==> exists k: nat :: RunsDry(old(items), arrivals, k) && k <= Max(size, 0)
      ensures if lost == [] then items == [] else |clauses| == Max(size, 0)
    {
      clauses, lost, calls := [], [], 0;
      while true
        invariant calls <= Max(size, 0) && |clauses| == calls && lost == []
        invariant clauses + items == old(items) + Flat(arrivals[..calls])
        invariant forall k :: 0 <= k < calls ==> !RunsDry(old(items), arrivals, k)
        decreases Max(size, 0) - calls
      {
        FlatStep(arrivals, calls);
        assert old(items) + Flat(arrivals[..calls]) + arrivals[calls] == old(items) + (Flat(arrivals[..calls]) + arrivals[calls]);
        assert clauses + (items + arrivals[calls]) == old(items) + Flat(arrivals[..calls + 1]);
        items := items + arrivals[calls];
        calls := calls + 1;
        ghost var before := items;
        var r := GetClause();
        if r == None {
          assert RunsDry(old(items), arrivals, calls - 1);
          break;
        }
        assert before == [r.value] + items;
        assert !RunsDry(old(items), arrivals, calls - 1);
        assert clauses + before == clauses + [r.value] + items;
        if |clauses| >= size {
          lost := [r.value];
          break;
        }
        clauses := clauses + [r.value];
      }
    }
  }

  function Max(a: int, b: nat): nat {
    if a > b then a else b
  }

  function Flat(s: seq<seq<Clause>>): seq<Clause> {
    if s == [] then [] else Flat(s[..|s| - 1]) + s[|s| - 1]
  }

  lemma FlatStep(s: seq<seq<Clause>>, k: nat)
    requires k < |s|
    ensures Flat(s[..k + 1]) == Flat(s[..k]) + s[k]
  {
    assert s[..k + 1][..k] == s[..k];
  }

  /** Call number k would find the queue empty if all calls before it got a clause. */
  ghost predicate RunsDry(items: seq<Clause>, arrivals: seq<seq<Clause>>, k: nat) {
    k < |arrivals| && |items| + |Flat(arrivals[..k + 1])| <= k
  }

  /** A drain that nobody disturbs and that reads the right size gets all clauses and loses none;
      one that reads too small a size loses one. */
  method UndisturbedDrain(contents: seq<Clause>, size: nat) returns (clauses: seq<Clause>, lost: seq<Clause>)
    ensures lost == [] <==> |contents| <= size
    ensures lost == [] ==> clauses == contents
  {
    var d := new Drain(contents);
    var arrivals := seq(size + 1, _ => []);
    forall k: nat | k <= |arrivals|
      ensures Flat(arrivals[..k]) == []
    {
      FlatEmpty(arrivals[..k]);
    }
    assert |contents| <= size ==> RunsDry(contents, arrivals, |contents|);
    var calls;
    clauses, lost, calls := d.GetClauses(size, arrivals);
    assert clauses + lost + d.items == contents;
  }

  lemma {:induction false} FlatEmpty(s: seq<seq<Clause>>)
    requires forall k :: 0 <= k < |s| ==> s[k] == []
    ensures Flat(s) == []
  {
    if s != [] {
      FlatEmpty(s[..|s| - 1]);
    }
  }

  /** One clause that arrives during the drain is enough to lose it. */
  method DisturbedDrain() returns (clauses: seq<Clause>, lost: seq<Clause>)
    ensures clauses == [7] && lost == [8]
  {
    var d := new Drain([7]);
    var arrivals := [[], [8]];
    FlatStep(arrivals, 0);
    FlatStep(arrivals, 1);
    assert arrivals[..0] == [] && Flat(arrivals[..2]) == [8] && Flat(arrivals[..1]) == [];
    var calls;
    clauses, lost, calls := d.GetClauses(1, arrivals);
    assert forall k: nat :: k <= 1 ==> !RunsDry([7], arrivals, k);
    var all := clauses + lost + d.items;
    assert |all| == 1 + |Flat(arrivals[..calls])|;
    assert calls == 2 && all == [7, 8];
    assert clauses[0] == all[0] && lost[0] == all[1];
  }
}
